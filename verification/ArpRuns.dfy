/** Whole runs of the network interface: nothing is lost or reordered, requests are spaced, addresses are fresh. */
module ArpRuns {
  import opened Words
  import opened Arp

  // ---------- runs with a clock and logs ----------

  /** An address learned, and when. */
  datatype Lesson = Lesson(ip: Ip, mac: Mac, time: nat)

  /** When a frame went out, and how many lessons had been learned by then. */
  datatype Stamp = Stamp(time: nat, lessons: nat)

  /** The interface with a clock and what has happened so far; its queue of frames is left undrained as the log of all frames. */
  datatype World = World(
    net: Interface, now: nat, submitted: seq<Waiting>, lessons: seq<Lesson>, stamps: seq<Stamp>)

  datatype Event = Submit(dgram: Datagram, hop: Ip) | Arrive(frame: Incoming) | Pass(ms: nat)

  function Repeat(x: Stamp, k: nat): seq<Stamp> {
    seq(k, _ => x)
  }

  /** Stamps the frames that are new in `net`. */
  function Stamped(w: World, net: Interface, lessons: seq<Lesson>): World
    requires |net.frames| >= |w.net.frames|
  {
    w.(net := net, lessons := lessons,
       stamps := w.stamps + Repeat(Stamp(w.now, |lessons|), |net.frames| - |w.net.frames|))
  }

  lemma FramesGrow(n: Interface, f: Incoming)
    ensures n.frames <= Receive(n, f).frames
  {
  }

  function After(w: World, e: Event): World {
    match e
    case Submit(d, hop) =>
      Stamped(w, SendDatagram(w.net, d, hop), w.lessons).(submitted := w.submitted + [Waiting(d, hop)])
    case Arrive(f) =>
      FramesGrow(w.net, f);
      var lessons :=
        if Teaches(w.net, f)
        then w.lessons + [Lesson(f.content.msg.value.senderIp, f.content.msg.value.senderMac, w.now)]
        else w.lessons;
      Stamped(w, Receive(w.net, f), lessons)
    case Pass(ms) => w.(net := Tick(w.net, ms), now := w.now + ms)
  }

  function Init(mac: Mac, ip: Ip): World {
    World(NewInterface(mac, ip), 0, [], [], [])
  }

  function Exec(w: World, events: seq<Event>): World
    decreases |events|
  {
    if events == [] then w else Exec(After(w, events[0]), events[1..])
  }

  // ---------- consistency ----------

  predicate Awaited(ws: seq<Waiting>, ip: Ip) {
    exists w :: w in ws && w.hop == ip
  }

  /** Timers are kept for exactly the addresses datagrams wait for, none of which is known. */
  ghost predicate Consistent(n: Interface) {
    && (forall ip :: ip in n.timers <==> Awaited(n.pending, ip))
    && (forall ip :: ip in n.timers ==> ip !in n.cache)
  }

  lemma {:induction false} OthersMeaning(ws: seq<Waiting>, hop: Ip)
    ensures forall w :: w in Others(ws, hop) <==> w in ws && w.hop != hop
  {
    if ws != [] {
      OthersMeaning(ws[1..], hop);
    }
  }

  lemma SubmitConsistent(n: Interface, d: Datagram, hop: Ip)
    requires Consistent(n)
    ensures Consistent(SendDatagram(n, d, hop))
  {
  }

  lemma ReceiveConsistent(n: Interface, f: Incoming)
    requires Consistent(n)
    ensures Consistent(Receive(n, f))
  {
    if Teaches(n, f) {
      var gone := f.content.msg.value.senderIp;
      OthersMeaning(n.pending, gone);
      assert forall ip :: Awaited(Others(n.pending, gone), ip) <==> Awaited(n.pending, ip) && ip != gone;
    }
  }

  lemma TickConsistent(n: Interface, ms: nat)
    requires Consistent(n)
    ensures Consistent(Tick(n, ms))
  {
  }

  // ---------- conservation and order ----------

  /** The datagrams framed for one address, in the order they went out. */
  function Delivered(frames: seq<Outgoing>, hop: Ip): seq<Datagram> {
    if frames == [] then []
    else
      var f := frames[|frames| - 1];
      Delivered(frames[..|frames| - 1], hop) + if f.DatagramFrame? && f.hop == hop then [f.dgram] else []
  }

  lemma DeliveredAppend(frames: seq<Outgoing>, f: Outgoing, hop: Ip)
    ensures Delivered(frames + [f], hop) == Delivered(frames, hop) + if f.DatagramFrame? && f.hop == hop then [f.dgram] else []
  {
  }

  lemma {:induction false} ForOthers(ws: seq<Waiting>, gone: Ip, hop: Ip)
    ensures For(Others(ws, gone), hop) == if hop == gone then [] else For(ws, hop)
  {
    if ws != [] {
      ForOthers(ws[1..], gone, hop);
      if ws[0].hop != gone {
        assert Others(ws, gone)[1..] == Others(ws[1..], gone);
      } else {
        assert Others(ws, gone) == Others(ws[1..], gone);
      }
    }
  }

  lemma {:induction false} DeliveredFramed(frames: seq<Outgoing>, n: Interface, ds: seq<Datagram>, gone: Ip, hop: Ip)
    requires gone in n.cache
    ensures Delivered(frames + Framed(n, ds, gone), hop) == Delivered(frames, hop) + if hop == gone then ds else []
    decreases |ds|
  {
    if ds == [] {
      assert frames + [] == frames;
    } else {
      var f := DatagramFrame(n.mac, n.cache[gone].mac, ds[0], gone);
      assert frames + Framed(n, ds, gone) == (frames + [f]) + Framed(n, ds[1..], gone);
      DeliveredFramed(frames + [f], n, ds[1..], gone, hop);
      DeliveredAppend(frames, f, hop);
      assert [ds[0]] + ds[1..] == ds;
    }
  }

  /** For each address: what was submitted is what was framed followed by what waits, in the same order. */
  ghost predicate Conserved(w: World) {
    forall hop :: For(w.submitted, hop) == Delivered(w.net.frames, hop) + For(w.net.pending, hop)
  }

  lemma SendKnownConserves(n: Interface, d: Datagram, hop: Ip, h: Ip)
    requires Consistent(n) && hop in n.cache
    ensures var t := SendDatagram(n, d, hop); var more := if hop == h then [d] else [];
            Delivered(t.frames, h) + For(t.pending, h) == Delivered(n.frames, h) + For(n.pending, h) + more
  {
    var f := DatagramFrame(n.mac, n.cache[hop].mac, d, hop);
    DeliveredAppend(n.frames, f, h);
    if h == hop {
      KnownHasNoneWaiting(n, hop);
    }
  }

  lemma SendUnknownConserves(n: Interface, d: Datagram, hop: Ip, h: Ip)
    requires hop !in n.cache
    ensures var t := SendDatagram(n, d, hop); var more := if hop == h then [d] else [];
            Delivered(t.frames, h) + For(t.pending, h) == Delivered(n.frames, h) + For(n.pending, h) + more
  {
    ForAppend(n.pending, Waiting(d, hop), h);
    DeliveredAppend(n.frames, ArpRequest(n, hop), h);
    assert Delivered(SendDatagram(n, d, hop).frames, h) == Delivered(n.frames, h);
  }

  lemma SubmitConserves(w: World, d: Datagram, hop: Ip, h: Ip)
    requires For(w.submitted, h) == Delivered(w.net.frames, h) + For(w.net.pending, h) && Consistent(w.net)
    ensures var t := SendDatagram(w.net, d, hop);
            For(w.submitted + [Waiting(d, hop)], h) == Delivered(t.frames, h) + For(t.pending, h)
  {
    ForAppend(w.submitted, Waiting(d, hop), h);
    if hop in w.net.cache {
      SendKnownConserves(w.net, d, hop, h);
    } else {
      SendUnknownConserves(w.net, d, hop, h);
    }
  }

  lemma KnownHasNoneWaiting(n: Interface, hop: Ip)
    requires Consistent(n) && hop in n.cache
    ensures For(n.pending, hop) == []
  {
    NothingWaits(n.pending, hop);
  }

  lemma SubmitConserved(w: World, d: Datagram, hop: Ip)
    requires Conserved(w) && Consistent(w.net)
    ensures Conserved(After(w, Submit(d, hop)))
  {
    forall h: Ip
      ensures For(w.submitted + [Waiting(d, hop)], h)
           == Delivered(SendDatagram(w.net, d, hop).frames, h) + For(SendDatagram(w.net, d, hop).pending, h)
    {
      SubmitConserves(w, d, hop, h);
    }
  }

  lemma {:induction false} NothingWaits(ws: seq<Waiting>, hop: Ip)
    requires forall w :: w in ws ==> w.hop != hop
    ensures For(ws, hop) == []
  {
    if ws != [] {
      NothingWaits(ws[1..], hop);
    }
  }

  lemma LearnConserves(n: Interface, msg: Message, h: Ip)
    ensures var t := Learn(n, msg);
            Delivered(t.frames, h) + For(t.pending, h) == Delivered(n.frames, h) + For(n.pending, h)
  {
    DeliveredFramed(n.frames, Known(n, msg), For(n.pending, msg.senderIp), msg.senderIp, h);
    ForOthers(n.pending, msg.senderIp, h);
  }

  lemma ArriveConserved(w: World, f: Incoming)
    requires Conserved(w)
    ensures Conserved(After(w, Arrive(f)))
  {
    if Teaches(w.net, f) {
      var msg := f.content.msg.value;
      forall h: Ip
        ensures For(w.submitted, h) == Delivered(Receive(w.net, f).frames, h) + For(Receive(w.net, f).pending, h)
      {
        LearnConserves(w.net, msg, h);
        DeliveredAppend(Learn(w.net, msg).frames, ArpReply(w.net, msg), h);
      }
    }
  }

  // ---------- requests are spaced ----------

  ghost predicate Aligned(w: World) {
    && |w.stamps| == |w.net.frames|
    && (forall k :: 0 <= k < |w.stamps| ==> w.stamps[k].time <= w.now && w.stamps[k].lessons <= |w.lessons|)
  }

  predicate IsRequest(f: Outgoing, ip: Ip) {
    f.ArpFrame? && f.msg.opcode.Request? && f.msg.targetIp == ip
  }

  /** How long ago a request for `ip` must have gone out at least, given what the interface knows now. */
  function Guard(n: Interface, ip: Ip): nat {
    if ip in n.timers then n.timers[ip]
    else if ip in n.cache then n.cache[ip].age
    else CACHE_VALID_TIME
  }

  /** Every request for `ip` is at least as long ago as the interface's knowledge says. */
  ghost predicate Guarded(w: World, ip: Ip)
    requires Aligned(w)
  {
    forall k :: 0 <= k < |w.net.frames| && IsRequest(w.net.frames[k], ip) ==>
      w.now - w.stamps[k].time >= Guard(w.net, ip)
  }

  /** Any two requests for `ip` are at least five seconds apart. */
  ghost predicate Apart(w: World, ip: Ip)
    requires Aligned(w)
  {
    forall j, k :: 0 <= j < k < |w.net.frames| && IsRequest(w.net.frames[j], ip) && IsRequest(w.net.frames[k], ip) ==>
      w.stamps[k].time - w.stamps[j].time >= ARP_REQ_TIME
  }

  ghost predicate Spaced(w: World)
    requires Aligned(w)
  {
    forall ip :: Guarded(w, ip) && Apart(w, ip)
  }

  lemma StampedAligned(w: World, net: Interface, lessons: seq<Lesson>)
    requires Aligned(w) && w.net.frames <= net.frames && w.lessons <= lessons
    ensures var v := Stamped(w, net, lessons);
            && Aligned(v) && v.now == w.now
            && (forall k :: 0 <= k < |w.stamps| ==> v.stamps[k] == w.stamps[k])
            && (forall k :: |w.stamps| <= k < |v.stamps| ==> v.stamps[k] == Stamp(w.now, |lessons|))
  {
  }

  /** A step that sends no request and lets no knowledge age faster than the clock. */
  lemma QuietSpaced(w: World, v: World, ip: Ip)
    requires Aligned(w) && Aligned(v) && Guarded(w, ip) && Apart(w, ip)
    requires w.net.frames <= v.net.frames && w.stamps <= v.stamps && w.now <= v.now
    requires forall k :: |w.net.frames| <= k < |v.net.frames| ==> !IsRequest(v.net.frames[k], ip)
    requires Guard(v.net, ip) <= Guard(w.net, ip) + (v.now - w.now)
    ensures Guarded(v, ip) && Apart(v, ip)
  {
  }

  /** A request goes out when the last one is at least five seconds old, or so old that an answer to it has expired. */
  lemma AskSpaced(w: World, v: World, hop: Ip)
    requires Aligned(w) && Aligned(v) && Guarded(w, hop) && Apart(w, hop)
    requires RequestDue(w.net, hop) && hop !in w.net.cache && v.now == w.now
    requires v.net.frames == w.net.frames + [ArpRequest(w.net, hop)]
    requires v.stamps == w.stamps + [Stamp(w.now, |w.lessons|)] && Guard(v.net, hop) == 0
    ensures Guarded(v, hop) && Apart(v, hop)
  {
  }

  lemma SubmitSpaced(w: World, d: Datagram, hop: Ip, ip: Ip)
    requires Aligned(w) && Guarded(w, ip) && Apart(w, ip)
    ensures var v := After(w, Submit(d, hop)); Aligned(v) && Guarded(v, ip) && Apart(v, ip)
  {
    var v := After(w, Submit(d, hop));
    StampedAligned(w, SendDatagram(w.net, d, hop), w.lessons);
    if hop !in w.net.cache && RequestDue(w.net, hop) && ip == hop {
      assert v.stamps == w.stamps + [Stamp(w.now, |w.lessons|)];
      AskSpaced(w, v, hop);
    } else {
      QuietSpaced(w, v, ip);
    }
  }

  lemma {:induction false} FramedNoRequest(n: Interface, ds: seq<Datagram>, hop: Ip)
    requires hop in n.cache
    ensures |Framed(n, ds, hop)| == |ds|
    ensures forall k :: 0 <= k < |ds| ==> Framed(n, ds, hop)[k] == DatagramFrame(n.mac, n.cache[hop].mac, ds[k], hop)
    decreases |ds|
  {
    if ds != [] {
      FramedNoRequest(n, ds[1..], hop);
    }
  }

  /** What a lesson adds to the frames: the waiting datagrams with the new address, and perhaps a reply. */
  lemma ArriveFrames(n: Interface, f: Incoming, k: nat)
    requires Teaches(n, f) && |n.frames| <= k < |Receive(n, f).frames|
    ensures var g, msg := Receive(n, f).frames[k], f.content.msg.value;
            if g.DatagramFrame? then g.hop == msg.senderIp && g.dst == msg.senderMac else g.msg.opcode.Reply?
  {
    var msg := f.content.msg.value;
    FramedNoRequest(Known(n, msg), For(n.pending, msg.senderIp), msg.senderIp);
  }

  lemma ArriveSpaced(w: World, f: Incoming, ip: Ip)
    requires Aligned(w) && Guarded(w, ip) && Apart(w, ip)
    ensures var v := After(w, Arrive(f)); Aligned(v) && Guarded(v, ip) && Apart(v, ip)
  {
    var v := After(w, Arrive(f));
    FramesGrow(w.net, f);
    StampedAligned(w, Receive(w.net, f), v.lessons);
    if Teaches(w.net, f) {
      forall k | |w.net.frames| <= k < |v.net.frames|
        ensures !IsRequest(v.net.frames[k], ip)
      {
        ArriveFrames(w.net, f, k);
      }
    }
    QuietSpaced(w, v, ip);
  }

  lemma PassSpaced(w: World, ms: nat, ip: Ip)
    requires Aligned(w) && Guarded(w, ip) && Apart(w, ip) && Consistent(w.net)
    ensures var v := After(w, Pass(ms)); Aligned(v) && Guarded(v, ip) && Apart(v, ip)
  {
    QuietSpaced(w, After(w, Pass(ms)), ip);
  }

  // ---------- addresses are fresh ----------

  /** The latest lesson about `ip`. */
  function Latest(lessons: seq<Lesson>, ip: Ip): Option<Lesson> {
    if lessons == [] then None
    else
      var last := lessons[|lessons| - 1];
      if last.ip == ip then Some(last) else Latest(lessons[..|lessons| - 1], ip)
  }

  /** There is a lesson about `ip`, and the latest is less than 30 seconds old. */
  predicate Recent(w: World, ip: Ip) {
    var l := Latest(w.lessons, ip); l.Some? && w.now < l.value.time + CACHE_VALID_TIME
  }

  /** An address is cached exactly when a recent lesson told it, and the entry is the latest one, as old as it says. */
  ghost predicate CacheFresh(w: World) {
    forall ip ::
      && (ip in w.net.cache <==> Recent(w, ip))
      && (ip in w.net.cache ==>
            var l := Latest(w.lessons, ip).value; l.mac == w.net.cache[ip].mac && l.time + w.net.cache[ip].age == w.now)
  }

  /** A datagram frame uses the address from the latest lesson at that moment, less than 30 seconds old. */
  ghost predicate FrameFresh(w: World, k: nat)
    requires Aligned(w) && k < |w.net.frames|
  {
    var f, s := w.net.frames[k], w.stamps[k];
    f.DatagramFrame? ==>
      var l := Latest(w.lessons[..s.lessons], f.hop);
      l.Some? && f.dst == l.value.mac && l.value.time <= s.time < l.value.time + CACHE_VALID_TIME
  }

  ghost predicate AllFresh(w: World)
    requires Aligned(w)
  {
    forall k: nat :: k < |w.net.frames| ==> FrameFresh(w, k)
  }

  lemma FrameStaysFresh(w: World, v: World, k: nat)
    requires Aligned(w) && Aligned(v) && k < |w.net.frames| && FrameFresh(w, k)
    requires w.net.frames <= v.net.frames && w.stamps <= v.stamps && w.lessons <= v.lessons
    ensures FrameFresh(v, k)
  {
    assert v.lessons[..v.stamps[k].lessons] == w.lessons[..w.stamps[k].lessons];
  }

  lemma SubmitFresh(w: World, d: Datagram, hop: Ip)
    requires Aligned(w) && CacheFresh(w) && AllFresh(w)
    ensures var v := After(w, Submit(d, hop)); Aligned(v) && CacheFresh(v) && AllFresh(v)
  {
    var v := After(w, Submit(d, hop));
    StampedAligned(w, SendDatagram(w.net, d, hop), w.lessons);
    forall k: nat | k < |v.net.frames|
      ensures FrameFresh(v, k)
    {
      if k < |w.net.frames| {
        FrameStaysFresh(w, v, k);
      } else {
        assert v.lessons[..|v.lessons|] == w.lessons;
      }
    }
  }

  lemma LatestAfter(lessons: seq<Lesson>, l: Lesson, ip: Ip)
    ensures Latest(lessons + [l], ip) == if l.ip == ip then Some(l) else Latest(lessons, ip)
  {
  }

  lemma ArriveFresh(w: World, f: Incoming)
    requires Aligned(w) && CacheFresh(w) && AllFresh(w)
    ensures var v := After(w, Arrive(f)); Aligned(v) && CacheFresh(v) && AllFresh(v)
  {
    var v := After(w, Arrive(f));
    FramesGrow(w.net, f);
    StampedAligned(w, Receive(w.net, f), v.lessons);
    if Teaches(w.net, f) {
      var msg := f.content.msg.value;
      var l := Lesson(msg.senderIp, msg.senderMac, w.now);
      forall ip: Ip
        ensures Latest(v.lessons, ip) == if ip == l.ip then Some(l) else Latest(w.lessons, ip)
      {
        LatestAfter(w.lessons, l, ip);
      }
      forall k: nat | k < |v.net.frames|
        ensures FrameFresh(v, k)
      {
        if k < |w.net.frames| {
          FrameStaysFresh(w, v, k);
        } else {
          ArriveFrames(w.net, f, k);
          assert v.lessons[..|v.lessons|] == v.lessons;
          LatestAfter(w.lessons, l, l.ip);
        }
      }
    } else {
      assert v == w;
    }
  }

  lemma PassFresh(w: World, ms: nat)
    requires Aligned(w) && CacheFresh(w) && AllFresh(w)
    ensures var v := After(w, Pass(ms)); Aligned(v) && CacheFresh(v) && AllFresh(v)
  {
    var v := After(w, Pass(ms));
    forall k: nat | k < |v.net.frames|
      ensures FrameFresh(v, k)
    {
      FrameStaysFresh(w, v, k);
    }
  }

  // ---------- requests are made ----------

  /** A timer shows how long ago a request for its address went out. */
  ghost predicate Clocked(w: World, ip: Ip)
    requires Aligned(w)
  {
    ip in w.net.timers ==>
      exists k :: 0 <= k < |w.net.frames| && IsRequest(w.net.frames[k], ip)
                  && w.now - w.stamps[k].time == w.net.timers[ip]
  }

  ghost predicate AllClocked(w: World)
    requires Aligned(w)
  {
    forall ip :: Clocked(w, ip)
  }

  lemma ClockedOn(w: World, v: World, ip: Ip)
    requires Aligned(w) && Aligned(v) && Clocked(w, ip)
    requires w.net.frames <= v.net.frames && w.stamps <= v.stamps
    requires ip in v.net.timers ==> ip in w.net.timers && v.net.timers[ip] + w.now == w.net.timers[ip] + v.now
    ensures Clocked(v, ip)
  {
    if ip in v.net.timers {
      var k :| 0 <= k < |w.net.frames| && IsRequest(w.net.frames[k], ip) && w.now - w.stamps[k].time == w.net.timers[ip];
      assert IsRequest(v.net.frames[k], ip) && v.now - v.stamps[k].time == v.net.timers[ip];
    }
  }

  lemma AskClocked(w: World, v: World, hop: Ip)
    requires Aligned(v) && v.now == w.now && v.net.frames == w.net.frames + [ArpRequest(w.net, hop)]
    requires Aligned(w) && v.stamps == w.stamps + [Stamp(w.now, |w.lessons|)]
    requires hop in v.net.timers && v.net.timers[hop] == 0
    ensures Clocked(v, hop)
  {
    var k := |w.net.frames|;
    assert IsRequest(v.net.frames[k], hop) && v.now - v.stamps[k].time == 0;
  }

  lemma SubmitClocked(w: World, d: Datagram, hop: Ip, ip: Ip)
    requires Aligned(w) && Clocked(w, ip)
    ensures var v := After(w, Submit(d, hop)); Aligned(v) && Clocked(v, ip)
  {
    var v := After(w, Submit(d, hop));
    StampedAligned(w, SendDatagram(w.net, d, hop), w.lessons);
    if hop !in w.net.cache && RequestDue(w.net, hop) && ip == hop {
      assert v.stamps == w.stamps + [Stamp(w.now, |w.lessons|)];
      AskClocked(w, v, hop);
    } else {
      ClockedOn(w, v, ip);
    }
  }

  lemma ArriveClocked(w: World, f: Incoming, ip: Ip)
    requires Aligned(w) && Clocked(w, ip)
    ensures var v := After(w, Arrive(f)); Aligned(v) && Clocked(v, ip)
  {
    var v := After(w, Arrive(f));
    FramesGrow(w.net, f);
    StampedAligned(w, Receive(w.net, f), v.lessons);
    ClockedOn(w, v, ip);
  }

  lemma PassClocked(w: World, ms: nat, ip: Ip)
    requires Aligned(w) && Clocked(w, ip)
    ensures var v := After(w, Pass(ms)); Aligned(v) && Clocked(v, ip)
  {
    ClockedOn(w, After(w, Pass(ms)), ip);
  }

  /** No request for `ip` went out in the last five seconds. */
  ghost predicate Unasked(w: World, ip: Ip)
    requires Aligned(w)
  {
    forall k :: 0 <= k < |w.net.frames| && IsRequest(w.net.frames[k], ip) ==> w.now - w.stamps[k].time >= ARP_REQ_TIME
  }

  lemma DueIff(w: World, hop: Ip)
    requires RunInv(w) && hop !in w.net.cache
    ensures RequestDue(w.net, hop) <==> Unasked(w, hop)
  {
    assert Guarded(w, hop) && Clocked(w, hop);
    if hop in w.net.timers {
      var k :| 0 <= k < |w.net.frames| && IsRequest(w.net.frames[k], hop) && w.now - w.stamps[k].time == w.net.timers[hop];
      assert Unasked(w, hop) ==> w.now - w.stamps[k].time >= ARP_REQ_TIME;
    }
  }

  // ---------- every run ----------

  ghost predicate RunInv(w: World) {
    && Consistent(w.net) && Conserved(w)
    && Aligned(w) && Spaced(w) && AllClocked(w) && CacheFresh(w) && AllFresh(w)
  }

  lemma AfterInv(w: World, e: Event)
    requires RunInv(w)
    ensures RunInv(After(w, e))
  {
    match e
    case Submit(d, hop) =>
      SubmitConsistent(w.net, d, hop);
      SubmitConserved(w, d, hop);
      SubmitFresh(w, d, hop);
      forall ip: Ip ensures Guarded(After(w, e), ip) && Apart(After(w, e), ip) { SubmitSpaced(w, d, hop, ip); }
      forall ip: Ip ensures Clocked(After(w, e), ip) { SubmitClocked(w, d, hop, ip); }
    case Arrive(f) =>
      ReceiveConsistent(w.net, f);
      ArriveConserved(w, f);
      ArriveFresh(w, f);
      forall ip: Ip ensures Guarded(After(w, e), ip) && Apart(After(w, e), ip) { ArriveSpaced(w, f, ip); }
      forall ip: Ip ensures Clocked(After(w, e), ip) { ArriveClocked(w, f, ip); }
    case Pass(ms) =>
      TickConsistent(w.net, ms);
      PassFresh(w, ms);
      forall ip: Ip ensures Guarded(After(w, e), ip) && Apart(After(w, e), ip) { PassSpaced(w, ms, ip); }
      forall ip: Ip ensures Clocked(After(w, e), ip) { PassClocked(w, ms, ip); }
  }

  lemma {:induction false} ExecInv(w: World, events: seq<Event>)
    requires RunInv(w)
    ensures RunInv(Exec(w, events))
    decreases |events|
  {
    if events != [] {
      AfterInv(w, events[0]);
      ExecInv(After(w, events[0]), events[1..]);
    }
  }

  /**
   * In every run: timers are kept for exactly the unknown addresses datagrams wait for; every
   * submitted datagram is framed or waiting, once, in order; requests for one address are five
   * seconds apart; an address is cached exactly while its latest lesson is under 30 seconds old; and every
   * datagram frame uses the latest address learned, under 30 seconds old.
   */
  lemma EveryRun(mac: Mac, ip: Ip, events: seq<Event>)
    ensures var w := Exec(Init(mac, ip), events);
            && Consistent(w.net) && Conserved(w) && Aligned(w)
            && (forall target :: Apart(w, target)) && CacheFresh(w) && AllFresh(w)
  {
    ExecInv(Init(mac, ip), events);
  }

  /**
   * After every run a datagram for `hop` goes out at once exactly when a lesson less than 30 seconds old told its
   * address; otherwise it waits, and a request goes out with it exactly when none did in the last five seconds.
   */
  lemma SubmitIff(mac: Mac, ip: Ip, events: seq<Event>, d: Datagram, hop: Ip)
    ensures var w := Exec(Init(mac, ip), events); var v := After(w, Submit(d, hop));
            && Aligned(w) && w.net.frames <= v.net.frames
            && (Recent(w, hop) ==>
                  v.net.pending == w.net.pending
                  && v.net.frames == w.net.frames + [DatagramFrame(mac, Latest(w.lessons, hop).value.mac, d, hop)])
            && (!Recent(w, hop) ==>
                  && v.net.pending == w.net.pending + [Waiting(d, hop)]
                  && (v.net.frames == w.net.frames + [ArpRequest(w.net, hop)] <==> Unasked(w, hop))
                  && (v.net.frames == w.net.frames <==> !Unasked(w, hop)))
  {
    ExecInv(Init(mac, ip), events);
    ExecMac(Init(mac, ip), events);
    var w := Exec(Init(mac, ip), events);
    if hop !in w.net.cache {
      DueIff(w, hop);
    }
  }

  lemma {:induction false} ExecMac(w: World, events: seq<Event>)
    ensures Exec(w, events).net.mac == w.net.mac && Exec(w, events).net.ip == w.net.ip
    decreases |events|
  {
    if events != [] {
      ExecMac(After(w, events[0]), events[1..]);
    }
  }

  /** Time passed in two parts is time passed. */
  lemma TicksAdd(n: Interface, a: nat, b: nat)
    ensures Tick(Tick(n, a), b) == Tick(n, a + b)
  {
  }
}
