/** Two interfaces on one wire: a request is answered, and the answer sends what was waiting. */
module ArpExchange {
  import opened Words
  import opened Arp
  import ArpRuns

  /** An ARP frame as it comes in at the other end. */
  function Arriving(f: Outgoing): Incoming
    requires f.ArpFrame?
  {
    Incoming(f.dst, NotIPv4(Some(f.msg)))
  }

  /** Frames for somebody else change nothing and pass nothing up; frames without a readable message teach nothing. */
  lemma Ignores(n: Interface, f: Incoming)
    ensures f.dst != BROADCAST && f.dst != n.mac ==> Receive(n, f) == n && PassedUp(n, f) == None
    ensures f.content.IPv4? || f.content.msg.None? ==> Receive(n, f) == n
  {
  }

  /** The message is a request for the address of `n`, and `n` gets to see it. */
  predicate Asks(n: Interface, f: Incoming) {
    && (f.dst == BROADCAST || f.dst == n.mac)
    && f.content.NotIPv4? && f.content.msg.Some?
    && f.content.msg.value.opcode.Request? && f.content.msg.value.targetIp == n.ip
  }

  predicate HasArp(frames: seq<Outgoing>) {
    exists k :: 0 <= k < |frames| && frames[k].ArpFrame?
  }

  /** A reply from `n` to the sender of `msg`: it says where `n` is and goes to the one who asked. */
  predicate Replies(n: Interface, msg: Message, f: Outgoing) {
    && f.ArpFrame? && f.src == n.mac && f.dst == msg.senderMac && f.msg.opcode.Reply?
    && f.msg.senderMac == n.mac && f.msg.senderIp == n.ip
    && f.msg.targetMac == msg.senderMac && f.msg.targetIp == msg.senderIp
  }

  /** An ARP frame goes out exactly when we are asked; it is one, it is the last, and it is the reply. */
  lemma ReplyIff(n: Interface, f: Incoming)
    ensures var t := Receive(n, f); var news := t.frames[|n.frames|..];
            && n.frames <= t.frames && (HasArp(news) <==> Asks(n, f))
            && (Asks(n, f) ==>
                  && |news| > 0 && Replies(n, f.content.msg.value, news[|news| - 1])
                  && !HasArp(news[..|news| - 1]))
  {
    var news := Receive(n, f).frames[|n.frames|..];
    if Teaches(n, f) {
      var waiting := Waited(n, f.content.msg.value);
      if Asks(n, f) {
        assert news == waiting + [ArpReply(n, f.content.msg.value)];
        LastOf(waiting, ArpReply(n, f.content.msg.value));
      } else {
        assert news == waiting;
      }
    }
  }

  /** The frames of what waited for the sender of a message; none of them is ARP. */
  lemma Waited(n: Interface, msg: Message) returns (waiting: seq<Outgoing>)
    ensures waiting == Framed(Known(n, msg), For(n.pending, msg.senderIp), msg.senderIp) && !HasArp(waiting)
  {
    waiting := Framed(Known(n, msg), For(n.pending, msg.senderIp), msg.senderIp);
    ArpRuns.FramedNoRequest(Known(n, msg), For(n.pending, msg.senderIp), msg.senderIp);
  }

  lemma LastOf(waiting: seq<Outgoing>, f: Outgoing)
    requires f.ArpFrame?
    ensures var news := waiting + [f]; HasArp(news) && news[|news| - 1] == f && news[..|news| - 1] == waiting
  {
    assert (waiting + [f])[|waiting|] == f;
  }

  /** What a message teaches: the sender's address is known and no longer asked for, and what waited for it goes there. */
  lemma Taught(n: Interface, msg: Message, dst: Mac)
    requires dst == BROADCAST || dst == n.mac
    ensures var t := Receive(n, Incoming(dst, NotIPv4(Some(msg)))); var sent := For(n.pending, msg.senderIp);
            && msg.senderIp in t.cache && t.cache[msg.senderIp] == Entry(msg.senderMac, 0)
            && msg.senderIp !in t.timers && For(t.pending, msg.senderIp) == []
            && |t.frames| >= |n.frames| + |sent|
            && (forall k :: 0 <= k < |sent| ==>
                  t.frames[|n.frames| + k] == DatagramFrame(n.mac, msg.senderMac, sent[k], msg.senderIp))
  {
    ArpRuns.FramedNoRequest(Known(n, msg), For(n.pending, msg.senderIp), msg.senderIp);
    ArpRuns.ForOthers(n.pending, msg.senderIp, msg.senderIp);
  }

  /**
   * `n` asks for the address of `m`. The request makes `m` add one ARP frame, which goes to `n`, and learn where `n`
   * is. When that frame comes back, whatever `n` has done in between, `n` knows where `m` is and sends there all it has
   * waiting for it, in order.
   */
  lemma Exchange(n: Interface, m: Interface, later: Interface)
    requires later.mac == n.mac && later.ip == n.ip
    ensures var request := ArpRequest(n, m.ip); var asked := Receive(m, Arriving(request));
            && |asked.frames| > |m.frames| && n.ip in asked.cache && asked.cache[n.ip].mac == n.mac
            && var reply := asked.frames[|asked.frames| - 1];
            && reply.ArpFrame? && reply.dst == n.mac && !HasArp(asked.frames[|m.frames|..|asked.frames| - 1])
            && var told := Receive(later, Arriving(reply)); var sent := For(later.pending, m.ip);
            && m.ip in told.cache && told.cache[m.ip].mac == m.mac && For(told.pending, m.ip) == []
            && told.frames == later.frames + told.frames[|later.frames|..]
            && |told.frames| == |later.frames| + |sent|
            && (forall k :: 0 <= k < |sent| ==>
                  told.frames[|later.frames| + k] == DatagramFrame(n.mac, m.mac, sent[k], m.ip))
  {
    var request := ArpRequest(n, m.ip);
    Asked(n, m);
    var asked := Receive(m, Arriving(request));
    var reply := asked.frames[|asked.frames| - 1];
    Taught(later, reply.msg, reply.dst);
    ReplyIff(later, Arriving(reply));
    Told(later, reply);
  }

  lemma Asked(n: Interface, m: Interface)
    ensures var request := ArpRequest(n, m.ip); var asked := Receive(m, Arriving(request));
            && |asked.frames| > |m.frames| && n.ip in asked.cache && asked.cache[n.ip].mac == n.mac
            && Replies(m, request.msg, asked.frames[|asked.frames| - 1])
            && !HasArp(asked.frames[|m.frames|..|asked.frames| - 1])
  {
    var request := ArpRequest(n, m.ip);
    var asked := Receive(m, Arriving(request));
    ReplyIff(m, Arriving(request));
    Taught(m, request.msg, request.dst);
    var news := asked.frames[|m.frames|..];
    assert news[..|news| - 1] == asked.frames[|m.frames|..|asked.frames| - 1];
    assert news[|news| - 1] == asked.frames[|asked.frames| - 1];
  }

  /** A reply brings out what waited and nothing more. */
  lemma Told(n: Interface, reply: Outgoing)
    requires reply.ArpFrame? && reply.dst == n.mac && reply.msg.opcode.Reply?
    ensures |Receive(n, Arriving(reply)).frames| == |n.frames| + |For(n.pending, reply.msg.senderIp)|
  {
    ArpRuns.FramedNoRequest(Known(n, reply.msg), For(n.pending, reply.msg.senderIp), reply.msg.senderIp);
  }
}
