/** A run in which the peer pulls its window back: the free part wraps around and the sender sends past the edge. */
module Overrun {
  import opened Words
  import opened WrappingIntegers
  import opened ByteStreams
  import opened Segments
  import opened Sending
  import opened SenderRuns

  const X: byte := 7
  const SYN := Segment(0, true, false, [], false, 0, 0, false, 0)
  const DATA := Segment(1, false, false, [X, X, X], false, 0, 0, false, 1)
  const MORE := Segment(4, false, false, [X], false, 0, 0, false, 4)

  const RUNNING := Timer(1000, 1000, 0, true)

  function Start(): Sender {
    NewSender(4, 1000, 0)
  }

  function Connected(): Sender {
    Sender(0, Fresh(4), 1, Timer(1000, 1000, 0, false), 1, 3, [], [SYN], 0, 0, false)
  }

  function Full(): Sender {
    Sender(0, StreamValue(4, [X, X, X], 3, false, false, false), 4, RUNNING, 1, 3, [DATA], [SYN, DATA], 3, 0, false)
  }

  /** Three bytes in flight, one more waiting, and a window of one. */
  function PulledBack(): Sender {
    Full().(window := 1, stream := StreamValue(4, [X, X, X, X], 3, false, false, false))
  }

  lemma Connects()
    ensures After(After(Start(), Filled), Acked(1, 3)) == Connected()
  {
    var s := FillWindow(Start());
    assert s == Sender(0, Fresh(4), 1, RUNNING, 0, 1, [SYN], [SYN], 1, 0, false);
    assert Unwrap(1, 0, 0) == 1 && Unwrap(0, 0, 1) == 0;
    assert [SYN][1..] == [];
    var t := TakeAck(s, 1, 3);
    assert t == Connected().(timer := RUNNING);
    assert Available(t) == 3 && NextPiece(t).Length() == 0;
    assert FillWindow(t) == t;
  }

  lemma Fills()
    ensures After(After(Connected(), Written([X, X, X])), Filled) == Full()
  {
    var s := After(Connected(), Written([X, X, X]));
    assert s.stream == StreamValue(4, [X, X, X], 0, false, false, false);
    assert Available(s) == 3 && NextPiece(s) == DATA;
    var t := SendPiece(s);
    assert t == Full();
    assert Available(t) == 0;
    assert FillLoop(s) == FillLoop(t);
  }

  lemma PullsBack()
    ensures After(After(Full(), Acked(1, 1)), Written([X])) == PulledBack()
  {
    assert Unwrap(1, 0, 1) == 1;
    assert [X, X, X] + [X] == [X, X, X, X];
  }

  /** The fourth byte goes out as number four, though the window ends before number two. */
  lemma SendsPastEdge()
    ensures FillWindow(PulledBack()).out == [SYN, DATA, MORE]
    ensures Overruns(PulledBack(), FillWindow(PulledBack()))
  {
    var s := PulledBack();
    NegativeWraps(-2);
    assert Available(s) == TWO64 - 2;
    assert NextPiece(s) == MORE;
    var t := SendPiece(s);
    NegativeWraps(-3);
    assert Available(t) == TWO64 - 3;
    assert NextPiece(t).Length() == 0;
    assert FillLoop(t) == SendPiece(t);
    assert t.out == [SYN, DATA] + [MORE];
  }

  ghost predicate Reaches(events: seq<Event>, s: Sender) {
    Legal(Start(), events) && Exec(Start(), events) == s
  }

  lemma StepReaches(events: seq<Event>, s: Sender, e: Event)
    requires Reaches(events, s) && Allowed(s, e)
    ensures Reaches(events + [e], After(s, e))
  {
    assert (events + [e])[..|events|] == events;
  }

  lemma TwoSteps(events: seq<Event>, s: Sender, a: Event, b: Event, t: Sender)
    requires Reaches(events, s) && Allowed(s, a) && Allowed(After(s, a), b) && After(After(s, a), b) == t
    ensures Reaches(events + [a, b], t)
  {
    StepReaches(events, s, a);
    StepReaches(events + [a], After(s, a), b);
    assert events + [a] + [b] == events + [a, b];
  }

  lemma ReachesPulledBack(none: seq<Event>)
    requires none == []
    ensures Reaches(none + [Filled, Acked(1, 3)] + [Written([X, X, X]), Filled] + [Acked(1, 1), Written([X])], PulledBack())
  {
    Connects();
    TwoSteps(none, Start(), Filled, Acked(1, 3), Connected());
    Fills();
    TwoSteps(none + [Filled, Acked(1, 3)], Connected(), Written([X, X, X]), Filled, Full());
    PullsBack();
    TwoSteps(none + [Filled, Acked(1, 3)] + [Written([X, X, X]), Filled], Full(), Acked(1, 1), Written([X]), PulledBack());
  }

  /** A legal run reaches the state in which filling overruns. */
  lemma RunOverruns(events: seq<Event>)
    requires events == [Filled, Acked(1, 3), Written([X, X, X]), Filled, Acked(1, 1), Written([X])]
    ensures Legal(Start(), events + [Filled])
    ensures var s, t := Exec(Start(), events), Exec(Start(), events + [Filled]); Overruns(s, t) && !WindowOk(t)
  {
    ReachesPulledBack([]);
    assert events == [] + [Filled, Acked(1, 3)] + [Written([X, X, X]), Filled] + [Acked(1, 1), Written([X])];
    StepReaches(events, PulledBack(), Filled);
    SendsPastEdge();
  }
}
