/** The connection as a value: one sender and one receiver with the rules for closing down. */
module Connecting {
  import opened Words
  import opened WrappingIntegers
  import opened ByteStreams
  import opened Segments
  import opened Sending
  import opened Receiving
  import SenderRuns

  datatype Connection = Connection(
    timeout: nat,
    sender: Sender,
    receiver: Receiver,
    out: seq<Segment>,
    linger: bool,
    sinceLast: nat,
    active: bool,
    finSent: bool,
    finAcked: bool)

  function NewConnection(sendCapacity: nat, receiveCapacity: nat, timeout: nat, isn: u32): Connection {
    Connection(timeout, NewSender(sendCapacity, timeout, isn), NewReceiver(receiveCapacity),
               [], true, 0, true, false, false)
  }

  function SetOutputError(r: Receiver): Receiver {
    r.(reassembler := r.reassembler.(output := r.reassembler.output.(error := true)))
  }

  function Errors(c: Connection): Connection {
    c.(sender := c.sender.(stream := c.sender.stream.(error := true)), receiver := SetOutputError(c.receiver))
  }

  /** Fills in what the receiver has to say. */
  function Stamp(r: Receiver, seg: Segment): Segment {
    var ackno := Ackno(r);
    if ackno.None? then seg.(win := WindowField(r))
    else seg.(ackno := ackno.value, ack := true, win := WindowField(r))
  }

  /** One segment moves from the sender's queue to the outside, stamped. */
  function FlushOne(c: Connection): Connection
    requires c.sender.out != []
  {
    c.(sender := c.sender.(out := c.sender.out[1..]),
       out := c.out + [Stamp(c.receiver, c.sender.out[0])],
       finSent := c.finSent || c.sender.out[0].fin)
  }

  /** Moves everything the sender has queued. */
  function FlushSender(c: Connection): Connection
    decreases |c.sender.out|
  {
    if c.sender.out == [] then c else FlushSender(FlushOne(c))
  }

  /** A queue as it goes out. */
  function Stamped(r: Receiver, segs: seq<Segment>): (stamped: seq<Segment>)
    ensures |stamped| == |segs| && forall i :: 0 <= i < |segs| ==> stamped[i] == Stamp(r, segs[i])
  {
    seq(|segs|, i requires 0 <= i < |segs| => Stamp(r, segs[i]))
  }

  lemma StampedCons(r: Receiver, before: seq<Segment>, segs: seq<Segment>)
    requires segs != []
    ensures before + [Stamp(r, segs[0])] + Stamped(r, segs[1..]) == before + Stamped(r, segs)
  {
  }

  /** A flush empties the queue and puts all of it out, stamped and in order. */
  lemma {:induction false} FlushMeans(c: Connection)
    ensures var d := FlushSender(c);
            && d == c.(sender := c.sender.(out := []), out := d.out, finSent := d.finSent)
            && d.out == c.out + Stamped(c.receiver, c.sender.out)
    decreases |c.sender.out|
  {
    if c.sender.out != [] {
      FlushMeans(FlushOne(c));
      StampedCons(c.receiver, c.out, c.sender.out);
    }
  }

  /** Both streams failed, nothing queued, no longer active. */
  function Abandoned(c: Connection): Connection {
    var d := Errors(c);
    d.(active := false, sender := d.sender.(out := []))
  }

  function SendRst(c: Connection): Connection {
    Abandoned(c).(out := c.out + [Build(c.sender, false, false, []).(rst := true)])
  }

  /** The sender's part of a segment: the acknowledgment it carries, then whatever fits now. */
  function Listen(c: Connection, seg: Segment): Connection
    requires Output(c.receiver).capacity > 0
  {
    var receiver := Receiving.SegmentReceived(c.receiver, seg);
    var acked := if seg.ack then AckReceived(c.sender, seg.ackno, seg.win) else c.sender;
    c.(receiver := receiver, sender := if Ackno(receiver).Some? then FillWindow(acked) else acked)
  }

  /** The closing rules: is our FIN acknowledged, or did the peer end first? */
  function NoteClosing(c: Connection, seg: Segment): Connection {
    if c.finSent then
      if seg.ackno == Wrap(c.sender.nextSeqno, c.sender.isn)
      then c.(finAcked := true, active := c.active && c.linger)
      else c
    else c.(linger := c.linger && !Output(c.receiver).inputEnded)
  }

  predicate KeepAlive(r: Receiver, seg: Segment) {
    Ackno(r).Some? && seg.Length() == 0 && seg.seqno == (Ackno(r).value - 1) % TWO32
  }

  /** Bare acknowledgments: for a segment that takes sequence space, and for a keep-alive. */
  function Answered(s: Sender, r: Receiver, seg: Segment): Sender {
    var t := if seg.Length() > 0 && s.out == [] then SendEmpty(s) else s;
    if KeepAlive(r, seg) then SendEmpty(t) else t
  }

  function Reply(c: Connection, seg: Segment): Connection {
    c.(sender := Answered(c.sender, c.receiver, seg))
  }

  function Processed(c: Connection, seg: Segment): Connection
    requires Output(c.receiver).capacity > 0
  {
    FlushSender(Reply(NoteClosing(Listen(c, seg), seg), seg))
  }

  function SegmentReceived(c: Connection, seg: Segment): Connection
    requires Output(c.receiver).capacity > 0
  {
    var d := c.(sinceLast := 0);
    if !c.active then
      if seg.syn then d.(active := true, receiver := Receiving.SegmentReceived(c.receiver, seg)) else d
    else if seg.rst then
      Errors(d).(active := false)
    else
      Processed(d, seg)
  }

  function WriteData(c: Connection, data: seq<byte>): Connection {
    FlushSender(c.(sender := FillWindow(c.sender.(stream := Write(c.sender.stream, data)))))
  }

  function EndInputStream(c: Connection): Connection {
    FlushSender(c.(sender := FillWindow(c.sender.(stream := EndInput(c.sender.stream)))))
  }

  function Connect(c: Connection): Connection {
    FlushSender(c.(active := true, sender := FillWindow(c.sender)))
  }

  function Finish(c: Connection): Connection {
    if Output(c.receiver).inputEnded && c.finAcked && (!c.linger || c.sinceLast >= 10 * c.timeout)
    then c.(active := false)
    else c
  }

  function Aged(c: Connection, ms: nat): Connection {
    c.(sinceLast := c.sinceLast + ms, sender := Sending.Tick(c.sender, ms))
  }

  /** Gives up over the retry limit, otherwise closes when all is done. */
  function Concluded(c: Connection): Connection {
    if c.sender.retransmissions > MAX_RETX_ATTEMPTS then SendRst(c) else FlushSender(Finish(c))
  }

  function Tick(c: Connection, ms: nat): Connection {
    Concluded(Aged(c, ms))
  }

  function ReadData(c: Connection, len: nat): Connection {
    var r := c.receiver.reassembler;
    c.(receiver := c.receiver.(reassembler := r.(output := Pop(r.output, len))))
  }

  // ---------- summary ----------

  datatype State = State(
    sender: SenderRuns.SenderSummary, receiver: ReceiverSummary, active: bool, linger: bool)

  function StateOf(c: Connection): State {
    State(SenderRuns.Summary(c.sender), Receiving.Summary(c.receiver), c.active, c.active && c.linger)
  }

  /** The state the connection is in after a clean shutdown. */
  const CLOSED := State(SenderRuns.FinAcked, FinReceived, false, false)
}
