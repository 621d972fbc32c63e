/** The sender as a value: the functions that its methods compute. */
module Sending {
  import opened Words
  import opened WrappingIntegers
  import opened ByteStreams
  import opened Segments

  // ---------- retransmission timer ----------

  datatype Timer = Timer(initialRto: nat, rto: nat, elapsed: nat, running: bool) {
    function Start(): Timer {
      if running then this else this.(elapsed := 0, running := true)
    }

    function Stop(): Timer {
      this.(elapsed := 0, running := false)
    }

    predicate Expires(ms: nat) {
      running && elapsed + ms >= rto
    }

    function Tick(ms: nat): Timer {
      if running then this.(elapsed := if Expires(ms) then 0 else elapsed + ms) else this
    }

    function ResetRto(): Timer {
      this.(rto := initialRto)
    }

    function DoubleRto(): Timer {
      this.(rto := rto * 2)
    }
  }

  function NewTimer(timeout: nat): Timer {
    Timer(timeout, timeout, 0, true)
  }

  // ---------- sender ----------

  datatype Sender = Sender(
    isn: u32,
    stream: Stream,
    nextSeqno: nat,
    timer: Timer,
    previousAck: nat,
    window: u16,
    outstanding: seq<Segment>,
    out: seq<Segment>,
    inFlight: int,
    retransmissions: nat,
    finSent: bool)

  function NewSender(capacity: nat, timeout: nat, isn: u32): Sender {
    Sender(isn, Fresh(capacity), 0, NewTimer(timeout), 0, 1, [], [], 0, 0, false)
  }

  /** A zero window is treated as a window of one. */
  function Effective(s: Sender): u16 {
    if s.window == 0 then 1 else s.window
  }

  /** The free part of the window, in 64-bit unsigned arithmetic: it wraps when more is in flight than fits. */
  function Available(s: Sender): nat {
    (Effective(s) - (s.nextSeqno - s.previousAck)) % TWO64
  }

  function Build(s: Sender, syn: bool, fin: bool, payload: seq<byte>): Segment {
    Segment(Wrap(s.nextSeqno, s.isn), syn, fin, payload, false, 0, 0, false, s.nextSeqno)
  }

  function Emit(s: Sender, seg: Segment): Sender {
    s.(out := s.out + [seg],
       outstanding := s.outstanding + [seg],
       timer := s.timer.Start(),
       nextSeqno := s.nextSeqno + seg.Length(),
       inFlight := s.inFlight + seg.Length())
  }

  /** The next piece of the stream; FIN rides along when the stream ends here and the whole window is not used up. */
  function NextPiece(s: Sender): Segment {
    var n := Min(Available(s), MAX_PAYLOAD_SIZE);
    var payload := Peek(s.stream, n);
    Build(s, false, Effective(s) != |payload| && Pop(s.stream, n).eof, payload)
  }

  function SendPiece(s: Sender): Sender {
    var seg := NextPiece(s);
    var rest := s.(stream := Pop(s.stream, Min(Available(s), MAX_PAYLOAD_SIZE)), finSent := s.finSent || seg.fin);
    if seg.Length() == 0 then rest else Emit(rest, seg)
  }

  function SendFin(s: Sender): Sender {
    if s.finSent then s else Emit(s.(finSent := true), Build(s, false, true, []))
  }

  /** The sending loop. It ends for any window, because every round reads bytes or reaches the end of the stream. */
  function FillLoop(s: Sender): Sender
    decreases |Buffer(s.stream)|, if s.stream.eof then 0 else 1
  {
    if Available(s) == 0 then s
    else if s.stream.eof then SendFin(s)
    else if NextPiece(s).Length() == 0 then SendPiece(s)
    else FillLoop(SendPiece(s))
  }

  function FillWindow(s: Sender): Sender {
    if s.nextSeqno == 0 then Emit(s, Build(s, true, false, []))
    else if s.nextSeqno == s.inFlight then s
    else FillLoop(s)
  }

  /** Drops fully acknowledged segments from the front of the queue. */
  function DropAcked(s: Sender): Sender
    decreases |s.outstanding|
  {
    if s.outstanding == [] then s
    else
      var seg := s.outstanding[0];
      if Unwrap(seg.seqno, s.isn, s.previousAck) + seg.Length() <= s.previousAck then
        DropAcked(s.(outstanding := s.outstanding[1..], inFlight := s.inFlight - seg.Length()))
      else s
  }

  predicate IsNewAck(s: Sender, ackno: u32) {
    s.previousAck < Unwrap(ackno, s.isn, s.previousAck) <= s.nextSeqno
  }

  function TakeAck(s: Sender, ackno: u32, window: u16): Sender {
    DropAcked(s.(
      window := window,
      previousAck := Unwrap(ackno, s.isn, s.previousAck),
      timer := s.timer.ResetRto().Stop().Start())).(retransmissions := 0)
  }

  function RestartTimer(s: Sender): Sender {
    s.(timer := if s.outstanding != [] then s.timer.Stop().Start() else s.timer.Stop())
  }

  /** The window is stored before the number is looked at; only a new number does more. */
  function AckReceived(s: Sender, ackno: u32, window: u16): Sender {
    if !IsNewAck(s, ackno) then s.(window := window)
    else RestartTimer(FillWindow(TakeAck(s, ackno, window)))
  }

  function Tick(s: Sender, ms: nat): Sender {
    var ticked := s.(timer := s.timer.Tick(ms));
    if !s.timer.Expires(ms) then ticked
    else
      var resent := if s.outstanding == [] then ticked else ticked.(out := s.out + [s.outstanding[0]]);
      var counted :=
        if s.window == 0 then resent
        else resent.(retransmissions := s.retransmissions + 1, timer := resent.timer.DoubleRto());
      counted.(timer := counted.timer.Stop().Start())
  }

  function SendEmpty(s: Sender): Sender {
    s.(out := s.out + [Build(s, false, false, [])])
  }
}
