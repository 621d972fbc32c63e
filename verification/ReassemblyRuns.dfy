/** Whole runs of the reassembler: pushes in any order, with overlap and repetition, and reads between them. */
module ReassemblyRuns {
  import opened Words
  import opened ByteStreams
  import opened Reassembly

  datatype Event = Pushed(data: seq<byte>, index: nat, eof: bool) | Popped(len: nat)

  function After(r: Reassembler, e: Event): Reassembler
    requires r.output.capacity > 0
  {
    match e
    case Pushed(data, index, eof) => Push(r, data, index, eof)
    case Popped(len) => r.(output := Pop(r.output, len))
  }

  /** The state after a run from an empty reassembler. */
  function Exec(capacity: nat, events: seq<Event>): (r: Reassembler)
    requires capacity > 0
    ensures r.output.capacity == capacity
    decreases |events|
  {
    if events == [] then Empty(capacity)
    else After(Exec(capacity, events[..|events| - 1]), events[|events| - 1])
  }

  /** Every push is a piece of `s` that starts no later than the end of the window at that moment. */
  ghost predicate InWindow(capacity: nat, events: seq<Event>, s: seq<byte>)
    requires capacity > 0
    decreases |events|
  {
    events == [] ||
    var before, e := events[..|events| - 1], events[|events| - 1];
    && InWindow(capacity, before, s)
    && (e.Pushed? ==> PieceOf(s, e.data, e.index, e.eof) && e.index <= Limit(Exec(capacity, before)))
  }

  /** Index `p` lies in a pushed range, clipped to the window as it was then. */
  ghost predicate Covered(capacity: nat, events: seq<Event>, p: nat)
    requires capacity > 0
    decreases |events|
  {
    events != [] &&
    var before, e := events[..|events| - 1], events[|events| - 1];
    || Covered(capacity, before, p)
    || (e.Pushed? && e.index <= p < Min(e.index + |e.data|, Limit(Exec(capacity, before))))
  }

  /**
   * The output is `s` up to the first index not covered, and the bytes held are exactly the covered
   * ones beyond it, each below bytes read plus capacity.
   */
  lemma {:induction false} RunAssemblesCovered(capacity: nat, events: seq<Event>, s: seq<byte>)
    requires capacity > 0 && InWindow(capacity, events, s)
    ensures var r := Exec(capacity, events);
            && Faithful(r, s) && r.output.history == s[..r.first]
            && !Covered(capacity, events, r.first)
            && (forall p: nat :: p < r.first ==> Covered(capacity, events, p))
            && (forall p: nat :: p in r.held <==> Covered(capacity, events, p) && p >= r.first)
            && (forall p: nat :: p in r.held ==> p < r.output.bytesRead + capacity)
    decreases |events|
  {
    if events != [] {
      var before, e := events[..|events| - 1], events[|events| - 1];
      RunAssemblesCovered(capacity, before, s);
      var r := Exec(capacity, before);
      if e.Pushed? {
        PushFaithful(r, s, e.data, e.index, e.eof);
      } else {
        ReadFaithful(r, s, e.len);
      }
      var t := Exec(capacity, events);
      assert forall p: nat :: (p < t.first || p in t.held) <==> Covered(capacity, events, p);
      assert t.first !in t.held;
    }
  }

  // ---------- order independence ----------

  ghost predicate OnlyPushes(capacity: nat, events: seq<Event>, s: seq<byte>) {
    forall e :: e in events ==> e.Pushed? && PieceOf(s, e.data, e.index, e.eof) && e.index <= capacity
  }

  predicate Hits(e: Event, capacity: nat, p: nat) {
    e.Pushed? && e.index <= p < Min(e.index + |e.data|, capacity)
  }

  predicate StoredEnd(e: Event, capacity: nat) {
    e.Pushed? && e.eof && e.index + |e.data| <= capacity
  }

  /** Without reads the window stays put. */
  lemma {:induction false} PushesStayInWindow(capacity: nat, events: seq<Event>, s: seq<byte>)
    requires capacity > 0 && OnlyPushes(capacity, events, s)
    ensures InWindow(capacity, events, s) && Limit(Exec(capacity, events)) == capacity
    decreases |events|
  {
    if events != [] {
      var before, e := events[..|events| - 1], events[|events| - 1];
      PushesStayInWindow(capacity, before, s);
      RunAssemblesCovered(capacity, before, s);
      PushFaithful(Exec(capacity, before), s, e.data, e.index, e.eof);
    }
  }

  lemma CoveredByLast(capacity: nat, events: seq<Event>, s: seq<byte>, p: nat)
    requires capacity > 0 && OnlyPushes(capacity, events, s) && events != []
    ensures var before, e := events[..|events| - 1], events[|events| - 1];
            Covered(capacity, events, p) <==> Covered(capacity, before, p) || Hits(e, capacity, p)
  {
    PushesStayInWindow(capacity, events[..|events| - 1], s);
  }

  /** So coverage does not depend on when a piece came. */
  lemma {:induction false} PushesCover(capacity: nat, events: seq<Event>, s: seq<byte>, p: nat)
    requires capacity > 0 && OnlyPushes(capacity, events, s)
    ensures Covered(capacity, events, p) <==> exists e :: e in events && Hits(e, capacity, p)
    decreases |events|
  {
    if events != [] {
      var before, e := events[..|events| - 1], events[|events| - 1];
      assert events == before + [e];
      PushesCover(capacity, before, s, p);
      CoveredByLast(capacity, events, s, p);
    }
  }

  lemma {:induction false} PushesSeeEnd(capacity: nat, events: seq<Event>, s: seq<byte>)
    requires capacity > 0 && OnlyPushes(capacity, events, s)
    ensures Exec(capacity, events).eofSeen <==> exists e :: e in events && StoredEnd(e, capacity)
    decreases |events|
  {
    if events != [] {
      var before, e := events[..|events| - 1], events[|events| - 1];
      assert events == before + [e];
      PushesSeeEnd(capacity, before, s);
      PushesStayInWindow(capacity, before, s);
      assert Exec(capacity, events).eofSeen <==> Exec(capacity, before).eofSeen || StoredEnd(e, capacity);
    }
  }

  /** Two runs made of the same pieces, in any order and with any repetition, end with the same bytes. */
  lemma OrderIndependence(capacity: nat, xs: seq<Event>, ys: seq<Event>, s: seq<byte>)
    requires capacity > 0 && OnlyPushes(capacity, xs, s) && OnlyPushes(capacity, ys, s)
    requires forall e :: e in xs <==> e in ys
    ensures var r, t := Exec(capacity, xs), Exec(capacity, ys);
            && r.output.history == t.output.history && r.first == t.first && r.held == t.held
            && r.eofSeen == t.eofSeen
  {
    PushesStayInWindow(capacity, xs, s);
    PushesStayInWindow(capacity, ys, s);
    RunAssemblesCovered(capacity, xs, s);
    RunAssemblesCovered(capacity, ys, s);
    SameCoverage(capacity, xs, ys, s);
    DeterminedByIndices(Exec(capacity, xs), Exec(capacity, ys), s);
    PushesSeeEnd(capacity, xs, s);
    PushesSeeEnd(capacity, ys, s);
  }

  lemma SameCoverage(capacity: nat, xs: seq<Event>, ys: seq<Event>, s: seq<byte>)
    requires capacity > 0 && OnlyPushes(capacity, xs, s) && OnlyPushes(capacity, ys, s)
    requires forall e :: e in xs <==> e in ys
    ensures forall p: nat :: Covered(capacity, xs, p) <==> Covered(capacity, ys, p)
  {
    forall p: nat
      ensures Covered(capacity, xs, p) <==> Covered(capacity, ys, p)
    {
      PushesCover(capacity, xs, s, p);
      PushesCover(capacity, ys, s, p);
    }
  }

  // ---------- end of stream ----------

  /** What a reader is promised: input is ended exactly when the end has been seen and all of `s` is assembled. */
  ghost predicate EndRight(r: Reassembler, s: seq<byte>) {
    r.output.inputEnded <==> r.eofSeen && r.first == |s|
  }

  /** What it takes for that to stay so: an end seen early rests on its last byte. */
  ghost predicate EndExact(r: Reassembler, s: seq<byte>) {
    EndRight(r, s) && (r.eofSeen ==> r.first == |s| || |s| - 1 in r.held)
  }

  /** An end with no bytes of its own, announced beyond a hole whose last byte is missing. */
  predicate EndAheadOfHole(r: Reassembler, data: seq<byte>, index: nat, eof: bool) {
    eof && data == [] && index > r.first && index - 1 !in r.held
  }

  /** What a push does to the end of the stream. */
  lemma EndAfterPush(r: Reassembler, s: seq<byte>, data: seq<byte>, index: nat, eof: bool)
    requires Faithful(r, s) && EndExact(r, s) && PieceOf(s, data, index, eof) && index <= Limit(r)
    ensures var t := Push(r, data, index, eof);
            && Faithful(t, s) && Limit(t) == Limit(r)
            && (t.output.inputEnded <==> t.eofSeen && t.held == map[])
            && (EndAheadOfHole(r, data, index, eof) ==>
                  t.eofSeen && t.first == r.first < |s| && t.held == r.held && |s| - 1 !in t.held)
            && (!EndAheadOfHole(r, data, index, eof) ==> t.eofSeen ==> t.first == |s| || |s| - 1 in t.held)
  {
    var mid := AfterStore(r, data, index, eof);
    var t := Push(r, data, index, eof);
    StoreFaithful(r, s, data, index, eof);
    PushFaithful(r, s, data, index, eof);
    EndedByPush(mid, s);
    if |s| > 0 {
      assert (|s| - 1 < t.first || |s| - 1 in t.held)
        <==> (|s| - 1 < r.first || |s| - 1 in r.held || index <= |s| - 1 < Min(index + |data|, Limit(r)));
    }
  }

  /** A push leaves the end right if and only if it does not announce it ahead of a hole with nothing held. */
  lemma EndRightIff(r: Reassembler, s: seq<byte>, data: seq<byte>, index: nat, eof: bool)
    requires Faithful(r, s) && EndExact(r, s) && PieceOf(s, data, index, eof) && index <= Limit(r)
    ensures EndRight(Push(r, data, index, eof), s) <==> !(EndAheadOfHole(r, data, index, eof) && r.held == map[])
  {
    EndAfterPush(r, s, data, index, eof);
  }

  /** With something held the end is right for now, and one more push of good bytes makes it wrong. */
  lemma EndGoesWrong(r: Reassembler, s: seq<byte>)
    requires Faithful(r, s) && EndExact(r, s) && |s| <= Limit(r) && EndAheadOfHole(r, [], |s|, true)
    ensures var t := Push(r, [], |s|, true);
            && t.first < |s|
            && PieceOf(s, s[t.first..|s| - 1], t.first, false)
            && !EndRight(Push(t, s[t.first..|s| - 1], t.first, false), s)
  {
    EndAfterPush(r, s, [], |s|, true);
    FillsAllButLast(Push(r, [], |s|, true), s);
  }

  lemma FillsAllButLast(t: Reassembler, s: seq<byte>)
    requires Faithful(t, s) && t.eofSeen && t.first < |s| <= Limit(t) && |s| - 1 !in t.held
    ensures PieceOf(s, s[t.first..|s| - 1], t.first, false)
    ensures !EndRight(Push(t, s[t.first..|s| - 1], t.first, false), s)
  {
    var data := s[t.first..|s| - 1];
    PushFaithful(t, s, data, t.first, false);
    StoreFaithful(t, s, data, t.first, false);
    var u := Push(t, data, t.first, false);
    assert forall p: nat :: p in u.held ==> p < |s| - 1;
    EndedByPush(AfterStore(t, data, t.first, false), s);
  }

  /** So a push keeps the end right for good if and only if it does not announce it ahead of a hole. */
  lemma EndExactIff(r: Reassembler, s: seq<byte>, data: seq<byte>, index: nat, eof: bool)
    requires Faithful(r, s) && EndExact(r, s) && PieceOf(s, data, index, eof) && index <= Limit(r)
    ensures EndExact(Push(r, data, index, eof), s) <==> !EndAheadOfHole(r, data, index, eof)
  {
    EndAfterPush(r, s, data, index, eof);
  }

  lemma EndedByPush(mid: Reassembler, s: seq<byte>)
    requires Aligned(mid) && mid.output.history <= s
    requires forall p: nat :: p in mid.held ==> p < |s| && mid.held[p] == s[p]
    ensures var t := Assemble(mid);
            && (t.output.inputEnded <==> mid.output.inputEnded || (mid.eofSeen && t.held == map[]))
            && t.eofSeen == mid.eofSeen
            && (t.first == |s| ==> t.held == map[])
            && (t.held == map[] ==> |s| - 1 !in t.held)
  {
  }

  /** With nothing held, an empty end beyond the first missing byte ends the stream at once, however much is missing. */
  lemma EmptyEndEndsEarly(r: Reassembler, index: nat)
    requires Aligned(r) && r.held == map[] && r.first < index <= Limit(r)
    ensures var t := Push(r, [], index, true);
            t.output.inputEnded && t.output.history == r.output.history && t.first == r.first < index
  {
  }

  ghost predicate NoEndAheadOfHole(capacity: nat, events: seq<Event>)
    requires capacity > 0
    decreases |events|
  {
    events == [] ||
    var before, e := events[..|events| - 1], events[|events| - 1];
    && NoEndAheadOfHole(capacity, before)
    && (e.Pushed? ==> !EndAheadOfHole(Exec(capacity, before), e.data, e.index, e.eof))
  }

  /** Over whole runs, the end of input is exact. */
  lemma {:induction false} RunEndExact(capacity: nat, events: seq<Event>, s: seq<byte>)
    requires capacity > 0 && InWindow(capacity, events, s) && NoEndAheadOfHole(capacity, events)
    ensures EndExact(Exec(capacity, events), s)
    decreases |events|
  {
    if events != [] {
      var before, e := events[..|events| - 1], events[|events| - 1];
      RunEndExact(capacity, before, s);
      RunAssemblesCovered(capacity, before, s);
      if e.Pushed? {
        EndExactIff(Exec(capacity, before), s, e.data, e.index, e.eof);
      }
    }
  }

  /**
   * Outside the window the documented discard does not happen: a byte any number of laps ahead is
   * taken for the next byte of the stream.
   */
  lemma OutOfWindowCorrupts(r: Reassembler, x: byte, index: u64)
    requires Aligned(r) && Room(r.output) > 0
    requires index > Limit(r) && (index - r.first) % r.output.capacity == 0
    ensures var t := Push(r, [x], index, false);
            |t.output.history| > r.first && t.output.history[r.first] == x
  {
  }
}
