/** The router as the source runs it: a table filled by insertion and queues drained in place. */
module Routers {
  import opened Words
  import opened Arp
  import opened NetworkInterfaces
  import opened Routing

  /** An interface that keeps the datagrams it receives until they are asked for. */
  class AsyncNetworkInterface {
    const net: NetworkInterface
    var datagramsOut: seq<Datagram>

    ghost function State(): Port
      reads this, net
    {
      Port(net.Value(), datagramsOut)
    }

    constructor (net: NetworkInterface)
      ensures this.net == net && datagramsOut == []
    {
      this.net := net;
      datagramsOut := [];
    }

    method ReceiveFrame(f: Incoming)
      modifies this, net
      ensures State() == Port(Receive(old(net.Value()), f),
                              match PassedUp(old(net.Value()), f)
                              case Some(d) => old(datagramsOut) + [d]
                              case None => old(datagramsOut))
    {
      var up := net.ReceiveFrame(f);
      if up.Some? {
        datagramsOut := datagramsOut + [up.value];
      }
    }
  }

  class Router {
    var interfaces: seq<AsyncNetworkInterface>
    var table: seq<Route>
    ghost var added: seq<Route>

    ghost predicate Valid()
      reads this, interfaces
    {
      && table == Table(added)
      && forall i, j :: 0 <= i < j < |interfaces| ==>
           interfaces[i] != interfaces[j] && interfaces[i].net != interfaces[j].net
    }

    ghost function Nets(): set<NetworkInterface>
      reads this, interfaces
    {
      set i | 0 <= i < |interfaces| :: interfaces[i].net
    }

    ghost function Ports(): (ps: seq<Port>)
      reads this, interfaces, Nets()
      ensures |ps| == |interfaces| && forall i :: 0 <= i < |ps| ==> ps[i] == interfaces[i].State()
    {
      PortsFrom(0)
    }

    ghost function PortsFrom(k: nat): (ps: seq<Port>)
      requires k <= |interfaces|
      reads this, interfaces, Nets()
      ensures |ps| == |interfaces| - k && forall i :: 0 <= i < |ps| ==> ps[i] == interfaces[k + i].State()
      decreases |interfaces| - k
    {
      if k == |interfaces| then []
      else
        assert interfaces[k].net in Nets();
        [interfaces[k].State()] + PortsFrom(k + 1)
    }

    constructor ()
      ensures Valid() && interfaces == [] && added == []
    {
      interfaces, table, added := [], [], [];
    }

    method AddInterface(i: AsyncNetworkInterface) returns (index: nat)
      requires Valid() && i !in interfaces && i.net !in Nets()
      modifies this`interfaces
      ensures Valid() && interfaces == old(interfaces) + [i] && index == |old(interfaces)|
    {
      assert forall j :: 0 <= j < |interfaces| ==> interfaces[j].net in Nets();
      interfaces := interfaces + [i];
      index := |interfaces| - 1;
    }

    method AddRoute(prefix: Ip, length: nat, nextHop: Option<Ip>, port: nat)
      requires Valid()
      modifies this`table, this`added
      ensures Valid() && added == old(added) + [Route(prefix, length, nextHop, port)]
    {
      var r := Route(prefix, length, nextHop, port);
      var i := 0;
      while i < |table| && length <= table[i].length
        invariant 0 <= i <= |table|
        invariant forall j :: 0 <= j < i ==> length <= table[j].length
      {
        i := i + 1;
      }
      InsertPlace(table, r, i);
      table := table[..i] + [r] + table[i..];
      added := added + [r];
      assert added[..|added| - 1] == old(added);
    }

    /** The first route that applies. */
    method Lookup(dst: Ip) returns (m: Option<Route>)
      requires Lengths(table)
      ensures m == FirstMatch(table, dst)
    {
      var i := 0;
      while i < |table|
        invariant 0 <= i <= |table|
        invariant forall j :: 0 <= j < i ==> !Matches(table[j], dst)
      {
        var r := table[i];
        if Matches(r, dst) {
          FirstMatchAt(table, dst, i);
          return Some(r);
        }
        i := i + 1;
      }
      FirstMatchAt(table, dst, i);
      assert table[i..] == [];
      return None;
    }

    /** Looks the address up and hands the datagram to the interface of the first route that applies. */
    method RouteOneDatagram(d: Datagram)
      requires Valid() && PortsExist(table, |interfaces|) && Lengths(table)
      modifies Nets()
      ensures Valid() && Ports() == Dispatch(old(Ports()), Forward(table, d))
    {
      var o := Decide(d);
      if o.Some? {
        assert interfaces[o.value.port].net in Nets();
        HandOver(o.value);
      }
    }

    method Decide(d: Datagram) returns (o: Option<Outbound>)
      requires PortsExist(table, |interfaces|) && Lengths(table)
      ensures o == Forward(table, d)
      ensures o.Some? ==> o.value.port < |interfaces|
    {
      if d.header.ttl <= 1 {
        return None;
      }
      var m := Lookup(Destination(d));
      if m.None? {
        return None;
      }
      FirstMatchInTable(table, Destination(d));
      var r := m.value;
      o := Some(Outbound(r.port, Decremented(d), if r.nextHop.None? then Destination(d) else r.nextHop.value));
    }

    method HandOver(o: Outbound)
      requires Valid() && o.port < |interfaces|
      modifies interfaces[o.port].net
      ensures Valid() && Ports() == Dispatch(old(Ports()), Some(o))
    {
      interfaces[o.port].net.Send(o.dgram, o.hop);
    }

    /** Goes over the interfaces and drains the queue of each. */
    method RouteAll()
      requires Valid() && PortsExist(table, |interfaces|) && Lengths(table)
      modifies interfaces, Nets()
      ensures Valid() && interfaces == old(interfaces) && table == old(table)
      ensures Ports() == RouteFrom(old(Ports()), table, 0)
    {
      ghost var target := RouteFrom(Ports(), table, 0);
      var i := 0;
      while i < |interfaces|
        invariant 0 <= i <= |interfaces| && interfaces == old(interfaces) && table == old(table)
        invariant Valid() && RouteFrom(Ports(), table, i) == target
      {
        RouteFromNext(Ports(), table, i);
        Drain(i);
        i := i + 1;
      }
    }

    method Drain(i: nat)
      requires Valid() && PortsExist(table, |interfaces|) && Lengths(table) && i < |interfaces|
      modifies interfaces[i], Nets()
      ensures Valid()
      ensures Ports() == WithInbox(RouteQueue(old(Ports()), table, old(Ports())[i].inbox), i, [])
    {
      ghost var target := WithInbox(RouteQueue(Ports(), table, interfaces[i].datagramsOut), i, []);
      while interfaces[i].datagramsOut != []
        invariant Valid()
        invariant target == WithInbox(RouteQueue(Ports(), table, interfaces[i].datagramsOut), i, [])
        decreases |interfaces[i].datagramsOut|
      {
        RouteFront(Ports(), table, interfaces[i].datagramsOut, i);
        RouteFirst(i);
      }
    }

    method RouteFirst(i: nat)
      requires Valid() && PortsExist(table, |interfaces|) && Lengths(table)
      requires i < |interfaces| && interfaces[i].datagramsOut != []
      modifies interfaces[i], Nets()
      ensures Valid() && interfaces[i].datagramsOut == old(interfaces[i].datagramsOut[1..])
      ensures Ports() == WithInbox(Dispatch(old(Ports()), Forward(table, old(interfaces[i].datagramsOut[0]))), i,
                                   old(interfaces[i].datagramsOut[1..]))
    {
      RouteOneDatagram(interfaces[i].datagramsOut[0]);
      TakeOff(i);
    }

    method TakeOff(i: nat)
      requires Valid() && i < |interfaces| && interfaces[i].datagramsOut != []
      modifies interfaces[i]
      ensures Valid() && interfaces[i].datagramsOut == old(interfaces[i].datagramsOut[1..])
      ensures Ports() == WithInbox(old(Ports()), i, old(interfaces[i].datagramsOut[1..]))
    {
      interfaces[i].datagramsOut := interfaces[i].datagramsOut[1..];
    }
  }
}
