/** Datagrams on their way: framed by one interface, read by another, forwarded by any number of routers. */
module Hops {
  import opened Words
  import opened Arp
  import opened Routing
  import opened Segments
  import Wire = IPv4
  import Over = TcpOverIp
  import Crossing

  /** A datagram that comes back from the wire. */
  predicate Whole(d: Datagram) {
    && Wire.DatagramSerializable(d) && Wire.Fits(d.header)
    && (4 * d.header.hlen <= d.header.len || d.header.hlen == 5)
  }

  function AsReceived(d: Datagram): Datagram
    requires Wire.DatagramSerializable(d)
  {
    d.(header := Wire.Sent(d.header))
  }

  lemma ComesBack(d: Datagram)
    requires Whole(d)
    ensures Parsed(Wire.SerializeDatagram(d)) == Some(AsReceived(d)) && Whole(AsReceived(d))
  {
    Wire.DatagramRoundTripIff(d, Wire.NEW_HEADER);
  }

  /** A frame that one interface sends is passed up by the interface it is for, datagram and all. */
  lemma FrameCrosses(f: Outgoing, n: Interface)
    requires f.DatagramFrame? && f.dst == n.mac && Whole(f.dgram)
    ensures PassedUp(n, Incoming(f.dst, IPv4(Wire.SerializeDatagram(f.dgram)))) == Some(AsReceived(f.dgram))
  {
    ComesBack(f.dgram);
  }

  // ---------- from router to router ----------

  /** Where a datagram is: at a router, or with the host it leaves the routers for. */
  datatype Node = Host | Router(id: nat)

  /** The routes added at each router, and where a port of a router and a next hop lead. */
  datatype Net = Net(routes: map<nat, seq<Route>>, links: map<(nat, nat, Ip), Node>)

  /** Follows a datagram: every router forwards it by its own table, out of the port and to the next hop of the route. */
  function Follow(net: Net, at: Node, d: Datagram): Option<Datagram>
    requires Whole(d)
    decreases d.header.ttl
  {
    if at.Host? then Some(d)
    else if at.id !in net.routes then None
    else
      match Forward(Table(net.routes[at.id]), d)
      case None => None
      case Some(o) =>
        ForwardedBack(net.routes[at.id], d);
        if (at.id, o.port, o.hop) !in net.links then None
        else Follow(net, net.links[(at.id, o.port, o.hop)], Parsed(Wire.SerializeDatagram(o.dgram)).value)
  }

  /** What is forwarded can be put on the wire, and is read there with one hop less to live. */
  lemma ForwardedBack(added: seq<Route>, d: Datagram)
    requires Whole(d) && Forward(Table(added), d).Some?
    ensures var o := Forward(Table(added), d).value;
            && Wire.DatagramSerializable(o.dgram)
            && var e := Parsed(Wire.SerializeDatagram(o.dgram));
            && e.Some? && Whole(e.value) && e.value.header.ttl == d.header.ttl - 1 && SameBut(d, e.value, 1)
  {
    DecrementedWhole(d);
    ComesBack(Decremented(d));
  }

  lemma DecrementedWhole(d: Datagram)
    requires Whole(d) && d.header.ttl > 0
    ensures Whole(Decremented(d))
  {
  }

  /** Where the routes of a router send what is for `dst`. */
  function NextNode(net: Net, id: nat, dst: Ip): Option<Node> {
    if id !in net.routes then None
    else
      match FirstMatch(Table(net.routes[id]), dst)
      case None => None
      case Some(r) =>
        var key := (id, r.port, if r.nextHop.None? then dst else r.nextHop.value);
        if key in net.links then Some(net.links[key]) else None
  }

  /** One step of a walk by the routes. */
  predicate Steps(net: Net, dst: Ip, from: Node, to: Node) {
    from.Router? && NextNode(net, from.id, dst) == Some(to)
  }

  /** Nodes one after the other by the routes alone, the last of them the host. */
  predicate Walk(net: Net, dst: Ip, nodes: seq<Node>) {
    && nodes != [] && nodes[|nodes| - 1] == Host
    && forall i: nat :: i + 1 < |nodes| ==> Steps(net, dst, nodes[i], nodes[i + 1])
  }

  lemma PseudoUnchanged(h: Wire.Header, ttl: u8, cksum: u16)
    ensures Wire.PseudoChecksum(h.(ttl := ttl, cksum := cksum)) == Wire.PseudoChecksum(h)
  {
  }

  /** The fields a hop rewrites do not reach the TCP checksum. */
  lemma CarriedUnchanged(d: Datagram, ttl: u8, cksum: u16)
    ensures Over.Carried(d.(header := d.header.(ttl := ttl, cksum := cksum))) == Over.Carried(d)
  {
    PseudoUnchanged(d.header, ttl, cksum);
  }

  /** `e` is `d` but for the time to live and the header checksum. */
  predicate SameBut(d: Datagram, e: Datagram, hops: nat) {
    && d.header.ttl >= hops
    && e == d.(header := d.header.(ttl := d.header.ttl - hops, cksum := e.header.cksum))
  }

  lemma SameButTwice(d: Datagram, e: Datagram, f: Datagram, hops: nat)
    requires SameBut(d, e, 1) && SameBut(e, f, hops)
    ensures SameBut(d, f, hops + 1)
  {
  }

  lemma SameDestination(d: Datagram, e: Datagram, hops: nat)
    requires SameBut(d, e, hops)
    ensures Destination(e) == Destination(d)
  {
  }

  /** One router: where the datagram goes next, and as what. */
  lemma FollowOnce(net: Net, at: Node, d: Datagram, dst: Ip, next: Node) returns (e: Datagram)
    requires Whole(d) && d.header.ttl > 1 && dst == Destination(d) && Steps(net, dst, at, next)
    ensures Whole(e) && SameBut(d, e, 1) && Destination(e) == dst
    ensures Follow(net, at, d) == Follow(net, next, e)
  {
    ForwardedBack(net.routes[at.id], d);
    e := Parsed(Wire.SerializeDatagram(Forward(Table(net.routes[at.id]), d).value.dgram)).value;
    SameDestination(d, e, 1);
  }

  lemma Stuck(net: Net, id: nat, d: Datagram)
    requires Whole(d) && (d.header.ttl <= 1 || NextNode(net, id, Destination(d)).None?)
    ensures Follow(net, Router(id), d).None?
  {
  }

  lemma StopsHere(net: Net, d: Datagram, dst: Ip, nodes: seq<Node>)
    requires Whole(d) && Walk(net, dst, nodes) && (|nodes| == 1 || d.header.ttl <= 1)
    ensures Follow(net, nodes[0], d) == if |nodes| == 1 then Some(d) else None
  {
    if |nodes| > 1 {
      assert Steps(net, dst, nodes[0], nodes[1]);
      Stuck(net, nodes[0].id, d);
    }
  }

  lemma WalkOn(net: Net, dst: Ip, nodes: seq<Node>)
    requires Walk(net, dst, nodes) && |nodes| > 1
    ensures Steps(net, dst, nodes[0], nodes[1]) && Walk(net, dst, nodes[1..])
  {
    forall i: nat | i + 1 < |nodes[1..]|
      ensures Steps(net, dst, nodes[1..][i], nodes[1..][i + 1])
    {
      assert Steps(net, dst, nodes[i + 1], nodes[i + 2]);
    }
  }

  lemma Onward(d: Datagram, e: Datagram, r: Option<Datagram>, k: nat)
    requires SameBut(d, e, 1) && d.header.ttl > 1
    requires (r.Some? <==> k == 0 || e.header.ttl > k) && (r.Some? ==> SameBut(e, r.value, k))
    ensures (r.Some? <==> d.header.ttl > k + 1) && (r.Some? ==> SameBut(d, r.value, k + 1))
  {
    if r.Some? {
      SameButTwice(d, e, r.value, k);
    }
  }

  /**
   * When the routes lead to the host over some routers, a datagram arrives exactly when it has more hops
   * to live than they are, and then with everything but time to live and header checksum unchanged.
   */
  lemma {:induction false} Arrives(net: Net, d: Datagram, dst: Ip, nodes: seq<Node>) returns (r: Option<Datagram>)
    requires Whole(d) && dst == Destination(d) && Walk(net, dst, nodes)
    ensures r == Follow(net, nodes[0], d)
    ensures (r.Some? <==> |nodes| == 1 || d.header.ttl >= |nodes|) && (r.Some? ==> SameBut(d, r.value, |nodes| - 1))
    decreases |nodes|
  {
    if |nodes| == 1 || d.header.ttl <= 1 {
      StopsHere(net, d, dst, nodes);
      r := if |nodes| == 1 then Some(d) else None;
    } else {
      WalkOn(net, dst, nodes);
      var e := FollowOnce(net, nodes[0], d, dst, nodes[1]);
      r := Arrives(net, e, dst, nodes[1..]);
      Onward(d, e, r, |nodes| - 2);
    }
  }

  lemma WalkFrom(net: Net, dst: Ip, at: Node, rest: seq<Node>)
    requires Walk(net, dst, rest) && Steps(net, dst, at, rest[0])
    ensures Walk(net, dst, [at] + rest)
  {
    forall i: nat | i + 1 < |[at] + rest|
      ensures Steps(net, dst, ([at] + rest)[i], ([at] + rest)[i + 1])
    {
      if i > 0 {
        assert Steps(net, dst, rest[i - 1], rest[i]);
      }
    }
  }

  /** And only then: a datagram that arrives was led to the host by the routes. */
  lemma {:induction false} Led(net: Net, at: Node, d: Datagram, dst: Ip) returns (nodes: seq<Node>)
    requires Whole(d) && dst == Destination(d) && Follow(net, at, d).Some?
    ensures Walk(net, dst, nodes) && nodes[0] == at
    decreases d.header.ttl
  {
    if at.Host? {
      nodes := [at];
    } else if d.header.ttl <= 1 || NextNode(net, at.id, dst).None? {
      Stuck(net, at.id, d);
      assert false;
    } else {
      var next := NextNode(net, at.id, dst).value;
      var e := FollowOnce(net, at, d, dst, next);
      var rest := Led(net, next, e, dst);
      WalkFrom(net, dst, at, rest);
      nodes := [at] + rest;
    }
  }

  lemma JudgeSame(a: Over.Adapter, h: Wire.Header, ttl: u8, cksum: u16, carried: Option<Over.Tcp.Segment>)
    ensures Over.Judge(a, h.(ttl := ttl, cksum := cksum), carried) == Over.Judge(a, h, carried)
  {
  }

  /** An adapter makes the same of both. */
  lemma UnwrapSame(a: Over.Adapter, d: Datagram, e: Datagram, hops: nat)
    requires SameBut(d, e, hops)
    ensures Over.Unwrap(a, e) == Over.Unwrap(a, d)
  {
    CarriedUnchanged(d, e.header.ttl, e.header.cksum);
    JudgeSame(a, d.header, e.header.ttl, e.header.cksum, Over.Carried(d));
  }

  lemma WrappedWhole(c: Over.Config, seg: Segment)
    requires |seg.payload| <= MAX_PAYLOAD_SIZE
    ensures var d := Over.Wrap(c, Crossing.ToWire(seg));
            Whole(d) && d.header.ttl == Wire.DEFAULT_TTL && Destination(d) == Ip(c.destAddr as bv32)
  {
    Over.WrapSerializableIff(c, Crossing.ToWire(seg));
  }

  lemma ArrivesSent(net: Net, d: Datagram, dst: Ip, nodes: seq<Node>)
    requires Whole(d) && dst == Destination(d) && Walk(net, dst, nodes) && |nodes| <= d.header.ttl
    ensures Whole(AsReceived(d))
    ensures var r := Follow(net, nodes[0], AsReceived(d)); r.Some? && SameBut(AsReceived(d), r.value, |nodes| - 1)
  {
    ComesBack(d);
    var r := Arrives(net, AsReceived(d), dst, nodes);
  }

  /** So a segment put out by one connection reaches the other unchanged, wherever the routes lead. */
  lemma SegmentTravels(net: Net, nodes: seq<Node>, c: Over.Config, seg: Segment, a: Over.Adapter)
    requires |seg.payload| <= MAX_PAYLOAD_SIZE && Over.Takes(a, Over.Mirror(c), Crossing.FlagsOf(seg))
    requires |nodes| <= Wire.DEFAULT_TTL && Walk(net, Ip(c.destAddr as bv32), nodes)
    ensures var d := Over.Wrap(c, Crossing.ToWire(seg));
            && Whole(d) && Whole(AsReceived(d))
            && var r := Follow(net, nodes[0], AsReceived(d));
            && r.Some?
            && var u := Over.Unwrap(a, r.value);
            u.segment.Some? && Crossing.FromWire(u.segment.value, seg.at) == seg
            && u.adapter == Over.Adapter(Over.Mirror(c), false)
  {
    var d := Over.Wrap(c, Crossing.ToWire(seg));
    WrappedWhole(c, seg);
    ArrivesSent(net, d, Ip(c.destAddr as bv32), nodes);
    ComesBack(d);
    Crossing.Crosses(c, seg, Wire.NEW_HEADER, a);
    UnwrapSame(a, AsReceived(d), Follow(net, nodes[0], AsReceived(d)).value, |nodes| - 1);
  }
}
