/** Longest-prefix-match routing as functions on values. */
module Routing {
  import opened Words
  import opened Arp

  datatype Route = Route(prefix: Ip, length: nat, nextHop: Option<Ip>, port: nat)

  /** The lengths the shift in the source is defined for. */
  ghost predicate Lengths(routes: seq<Route>) {
    forall r :: r in routes ==> r.length <= 32
  }

  // ---------- matching ----------

  const TOP: bv32 := 0x8000_0000

  function Mask(length: nat): bv32
    requires length <= 32
  {
    if length == 0 then 0 else 0xffff_ffff << (32 - length)
  }

  predicate MaskMatch(prefix: bv32, dst: bv32, mask: bv32) {
    prefix & mask == dst & mask
  }

  /** Does the route apply to the address? The shift is undefined beyond 32 bits. */
  predicate Matches(r: Route, dst: Ip) {
    r.length <= 32 && MaskMatch(r.prefix.numeric, dst.numeric, Mask(r.length))
  }

  /** The first `length` bits of the two numbers are the same, bit by bit from the top. */
  predicate SameBits(x: bv32, y: bv32, length: nat)
    decreases length
  {
    length == 0 || ((x ^ y) & TOP == 0 && SameBits(x << 1, y << 1, length - 1))
  }

  lemma ClearThenEqual(x: bv32, y: bv32, m: bv32, clear: bool)
    requires clear <==> (x ^ y) & m == 0
    ensures clear ==> x & m == y & m
  {
  }

  lemma EqualThenClear(x: bv32, y: bv32, m: bv32, clear: bool)
    requires clear <==> (x ^ y) & m == 0
    ensures x & m == y & m ==> clear
  {
  }

  lemma MatchWhenClear(x: bv32, y: bv32, m: bv32, clear: bool)
    requires clear <==> (x ^ y) & m == 0
    ensures MaskMatch(x, y, m) <==> clear
  {
    ClearThenEqual(x, y, m, clear);
    EqualThenClear(x, y, m, clear);
  }

  lemma XorShift(x: bv32, y: bv32)
    ensures (x << 1) ^ (y << 1) == (x ^ y) << 1
  {
  }

  lemma MaskedZeroIff(z: bv32, m: bv32)
    requires m & TOP == TOP
    ensures z & m == 0 <==> z & TOP == 0 && (z << 1) & (m << 1) == 0
  {
  }

  lemma MaskTop(length: nat)
    requires 0 < length <= 32
    ensures Mask(length) & TOP == TOP
  {
  }

  lemma ShiftOnce(k: nat)
    requires k < 31
    ensures ((0xffff_ffff as bv32) << k) << 1 == (0xffff_ffff as bv32) << (k + 1)
  {
    if k < 16 {
      assert ((0xffff_ffff as bv32) << k) << 1 == (0xffff_ffff as bv32) << (k + 1);
    }
  }

  lemma MaskShift(length: nat)
    requires 0 < length <= 32
    ensures Mask(length) & TOP == TOP && Mask(length - 1) == Mask(length) << 1
  {
    MaskTop(length);
    if length > 1 {
      ShiftOnce(32 - length);
    }
  }

  lemma {:induction false} SameBitsMasked(x: bv32, y: bv32, length: nat, m: bv32)
    requires length <= 32 && m == Mask(length)
    ensures SameBits(x, y, length) <==> (x ^ y) & m == 0
    decreases length
  {
    if length > 0 {
      MaskShift(length);
      SameBitsMasked(x << 1, y << 1, length - 1, m << 1);
      XorShift(x, y);
      MaskedZeroIff(x ^ y, m);
    }
  }

  /** Comparing under the mask of a length is comparing that many bits from the top. */
  lemma MaskMatchIsPrefix(prefix: bv32, dst: bv32, length: nat, mask: bv32)
    requires length <= 32 && mask == Mask(length)
    ensures MaskMatch(prefix, dst, mask) <==> SameBits(prefix, dst, length)
  {
    SameBitsMasked(prefix, dst, length, mask);
    MatchWhenClear(prefix, dst, mask, SameBits(prefix, dst, length));
  }

  // ---------- the table ----------

  /** Inserts before the first route with a shorter prefix. */
  function Insert(table: seq<Route>, r: Route): seq<Route> {
    if table == [] then [r]
    else if r.length > table[0].length then [r] + table
    else [table[0]] + Insert(table[1..], r)
  }

  /** The table after a sequence of additions. */
  function Table(added: seq<Route>): seq<Route> {
    if added == [] then [] else Insert(Table(added[..|added| - 1]), added[|added| - 1])
  }

  /** The place for a route is where all routes before it are at least as long and the next one is shorter. */
  lemma {:induction false} InsertPlace(table: seq<Route>, r: Route, i: nat)
    requires i <= |table| && (i < |table| ==> r.length > table[i].length)
    requires forall j :: 0 <= j < i ==> r.length <= table[j].length
    ensures Insert(table, r) == table[..i] + [r] + table[i..]
    decreases |table|
  {
    if table != [] && i > 0 {
      InsertPlace(table[1..], r, i - 1);
      assert table[..i] == [table[0]] + table[1..][..i - 1];
    }
  }

  ghost predicate Sorted(table: seq<Route>) {
    forall i, j :: 0 <= i < j < |table| ==> table[i].length >= table[j].length
  }

  lemma {:induction false} InsertMembers(table: seq<Route>, r: Route)
    ensures multiset(Insert(table, r)) == multiset(table) + multiset{r}
    ensures forall x :: x in Insert(table, r) <==> x in table || x == r
    decreases |table|
  {
    if table != [] {
      InsertMembers(table[1..], r);
      assert table == [table[0]] + table[1..];
    }
  }

  lemma SortedCons(x: Route, rest: seq<Route>)
    requires Sorted(rest) && forall y :: y in rest ==> y.length <= x.length
    ensures Sorted([x] + rest)
  {
  }

  lemma {:induction false} InsertSorted(table: seq<Route>, r: Route)
    requires Sorted(table)
    ensures Sorted(Insert(table, r))
    decreases |table|
  {
    if table == [] {
    } else if r.length > table[0].length {
      SortedCons(r, table);
    } else {
      InsertSorted(table[1..], r);
      InsertMembers(table[1..], r);
      SortedCons(table[0], Insert(table[1..], r));
    }
  }

  /** The table is the added routes, longest prefix first. */
  lemma {:induction false} TableSorted(added: seq<Route>)
    ensures Sorted(Table(added)) && multiset(Table(added)) == multiset(added)
    decreases |added|
  {
    if added != [] {
      var before, r := added[..|added| - 1], added[|added| - 1];
      TableSorted(before);
      InsertSorted(Table(before), r);
      InsertMembers(Table(before), r);
      assert added == before + [r];
    }
  }

  // ---------- longest prefix match ----------

  /** The first route in the table that applies. */
  function FirstMatch(table: seq<Route>, dst: Ip): Option<Route> {
    if table == [] then None
    else if Matches(table[0], dst) then Some(table[0])
    else FirstMatch(table[1..], dst)
  }

  lemma {:induction false} FirstMatchAt(table: seq<Route>, dst: Ip, i: nat)
    requires i <= |table| && forall j :: 0 <= j < i ==> !Matches(table[j], dst)
    ensures FirstMatch(table, dst) == FirstMatch(table[i..], dst)
  {
    if i > 0 {
      FirstMatchAt(table[1..], dst, i - 1);
    }
  }

  lemma {:induction false} FirstMatchInTable(table: seq<Route>, dst: Ip)
    ensures var m := FirstMatch(table, dst); m.Some? ==> m.value in table
  {
    if table != [] && !Matches(table[0], dst) {
      FirstMatchInTable(table[1..], dst);
    }
  }

  /** No route with a longer matching prefix was added, and none as long was added earlier. */
  ghost predicate IsBest(added: seq<Route>, dst: Ip, k: nat)
    requires k < |added|
  {
    && Matches(added[k], dst)
    && forall j :: 0 <= j < |added| && Matches(added[j], dst) ==>
         added[j].length < added[k].length || (added[j].length == added[k].length && k <= j)
  }

  /** How an addition changes the first match. */
  lemma {:induction false} InsertFirstMatch(table: seq<Route>, r: Route, dst: Ip)
    requires Sorted(table)
    ensures var m := FirstMatch(table, dst);
            var better := Matches(r, dst) && (m.None? || r.length > m.value.length);
            FirstMatch(Insert(table, r), dst) == (if better then Some(r) else m)
    decreases |table|
  {
    if table == [] {
      assert [r][1..] == [];
    } else if r.length > table[0].length {
      assert ([r] + table)[1..] == table;
      ShorterFirstMatch(table, dst);
    } else {
      InsertFirstMatch(table[1..], r, dst);
      assert Insert(table, r)[1..] == Insert(table[1..], r);
    }
  }

  lemma {:induction false} ShorterFirstMatch(table: seq<Route>, dst: Ip)
    requires Sorted(table) && table != []
    ensures var m := FirstMatch(table, dst); m.Some? ==> m.value.length <= table[0].length && m.value in table
    decreases |table|
  {
    if !Matches(table[0], dst) && |table| > 1 {
      ShorterFirstMatch(table[1..], dst);
    }
  }

  lemma BestBefore(before: seq<Route>, r: Route, dst: Ip, k: nat)
    requires k < |before| && IsBest(before, dst, k)
    requires !Matches(r, dst) || r.length <= before[k].length
    ensures IsBest(before + [r], dst, k)
  {
  }

  lemma BestLast(before: seq<Route>, r: Route, dst: Ip)
    requires Matches(r, dst)
    requires forall j :: 0 <= j < |before| && Matches(before[j], dst) ==> before[j].length < r.length
    ensures IsBest(before + [r], dst, |before|)
  {
  }

  /**
   * After any additions, the first match in the table is the longest matching prefix, the earliest
   * added among equals, and there is none exactly when no added route matches.
   */
  lemma {:induction false} LongestPrefixMatch(added: seq<Route>, dst: Ip)
    ensures var m := FirstMatch(Table(added), dst);
            && (m.None? <==> forall j :: 0 <= j < |added| ==> !Matches(added[j], dst))
            && (m.Some? ==> exists k :: 0 <= k < |added| && IsBest(added, dst, k) && added[k] == m.value)
    decreases |added|
  {
    if added != [] {
      var before, r := added[..|added| - 1], added[|added| - 1];
      assert added == before + [r];
      LongestPrefixMatch(before, dst);
      TableSorted(before);
      InsertFirstMatch(Table(before), r, dst);
      var m := FirstMatch(Table(before), dst);
      if m.Some? {
        var k :| 0 <= k < |before| && IsBest(before, dst, k) && before[k] == m.value;
        if Matches(r, dst) && r.length > m.value.length {
          BestLast(before, r, dst);
        } else {
          BestBefore(before, r, dst, k);
        }
      } else if Matches(r, dst) {
        BestLast(before, r, dst);
      }
    }
  }

  // ---------- forwarding ----------

  datatype Outbound = Outbound(port: nat, dgram: Datagram, hop: Ip)

  function Decremented(d: Datagram): Datagram
    requires d.header.ttl > 0
  {
    d.(header := d.header.(ttl := d.header.ttl - 1))
  }

  /** Where a datagram goes, with its time to live one less; nowhere when that has run out or no route applies. */
  function Forward(table: seq<Route>, d: Datagram): Option<Outbound> {
    if d.header.ttl <= 1 then None
    else
      match FirstMatch(table, Destination(d))
      case None => None
      case Some(r) =>
        Some(Outbound(r.port, Decremented(d), if r.nextHop.None? then Destination(d) else r.nextHop.value))
  }

  lemma DroppedIff(added: seq<Route>, d: Datagram)
    ensures Forward(Table(added), d).None?
       <==> d.header.ttl <= 1 || forall j :: 0 <= j < |added| ==> !Matches(added[j], Destination(d))
  {
    LongestPrefixMatch(added, Destination(d));
  }

  /** An interface of the router with the datagrams that came in on it. */
  datatype Port = Port(net: Interface, inbox: seq<Datagram>)

  ghost predicate PortsExist(table: seq<Route>, count: nat) {
    forall r :: r in table ==> r.port < count
  }

  /** Hands what is to go out to its interface. */
  function Dispatch(ports: seq<Port>, o: Option<Outbound>): (after: seq<Port>)
    ensures |after| == |ports|
  {
    if o.Some? && o.value.port < |ports| then
      var p := o.value.port;
      ports[p := ports[p].(net := SendDatagram(ports[p].net, o.value.dgram, o.value.hop))]
    else ports
  }

  function RouteQueue(ports: seq<Port>, table: seq<Route>, ds: seq<Datagram>): (after: seq<Port>)
    ensures |after| == |ports|
    decreases |ds|
  {
    if ds == [] then ports else RouteQueue(Dispatch(ports, Forward(table, ds[0])), table, ds[1..])
  }

  /** Drains the queues from the `i`th interface on. */
  function RouteFrom(ports: seq<Port>, table: seq<Route>, i: nat): (after: seq<Port>)
    ensures |after| == |ports|
    decreases |ports| - i
  {
    if i >= |ports| then ports
    else
      RouteFrom(WithInbox(RouteQueue(ports, table, ports[i].inbox), i, []), table, i + 1)
  }

  function WithInbox(ports: seq<Port>, i: nat, inbox: seq<Datagram>): seq<Port>
    requires i < |ports|
  {
    ports[i := ports[i].(inbox := inbox)]
  }

  lemma RouteFromNext(ports: seq<Port>, table: seq<Route>, i: nat)
    requires i < |ports|
    ensures RouteFrom(ports, table, i)
         == RouteFrom(WithInbox(RouteQueue(ports, table, ports[i].inbox), i, []), table, i + 1)
  {
  }

  /** Routing a queue does not look at what is queued elsewhere. */
  lemma {:induction false} RouteQueueIgnoresInbox(ports: seq<Port>, table: seq<Route>, ds: seq<Datagram>, i: nat, inbox: seq<Datagram>)
    requires i < |ports|
    ensures RouteQueue(WithInbox(ports, i, inbox), table, ds) == WithInbox(RouteQueue(ports, table, ds), i, inbox)
    decreases |ds|
  {
    if ds != [] {
      var next := Dispatch(ports, Forward(table, ds[0]));
      assert Dispatch(WithInbox(ports, i, inbox), Forward(table, ds[0])) == WithInbox(next, i, inbox);
      RouteQueueIgnoresInbox(next, table, ds[1..], i, inbox);
    }
  }

  /** Taking the routed datagram off the queue changes nothing for the rest. */
  lemma RouteFront(ports: seq<Port>, table: seq<Route>, queue: seq<Datagram>, i: nat)
    requires i < |ports| && queue != []
    ensures var next := WithInbox(Dispatch(ports, Forward(table, queue[0])), i, queue[1..]);
            WithInbox(RouteQueue(next, table, queue[1..]), i, []) == WithInbox(RouteQueue(ports, table, queue), i, [])
  {
    RouteQueueIgnoresInbox(Dispatch(ports, Forward(table, queue[0])), table, queue[1..], i, queue[1..]);
  }

  // ---------- what routing does, port by port ----------

  /** All datagrams queued from the `i`th interface on, in the order they are taken. */
  function Queued(ports: seq<Port>, i: nat): seq<Datagram>
    decreases |ports| - i
  {
    if i >= |ports| then [] else ports[i].inbox + Queued(ports, i + 1)
  }

  /** What goes out on port `p`, in order. */
  function Leaving(table: seq<Route>, ds: seq<Datagram>, p: nat): seq<Outbound> {
    if ds == [] then [] else LeavingOne(table, ds[0], p) + Leaving(table, ds[1..], p)
  }

  function SendAll(net: Interface, outs: seq<Outbound>): Interface
    decreases |outs|
  {
    if outs == [] then net else SendAll(SendDatagram(net, outs[0].dgram, outs[0].hop), outs[1..])
  }

  lemma {:induction false} SendAllConcat(net: Interface, xs: seq<Outbound>, ys: seq<Outbound>)
    ensures SendAll(net, xs + ys) == SendAll(SendAll(net, xs), ys)
    decreases |xs|
  {
    if xs == [] {
      assert xs + ys == ys;
    } else {
      assert (xs + ys)[1..] == xs[1..] + ys;
      SendAllConcat(SendDatagram(net, xs[0].dgram, xs[0].hop), xs[1..], ys);
    }
  }

  lemma {:induction false} LeavingConcat(table: seq<Route>, xs: seq<Datagram>, ys: seq<Datagram>, p: nat)
    ensures Leaving(table, xs + ys, p) == Leaving(table, xs, p) + Leaving(table, ys, p)
    decreases |xs|
  {
    if xs == [] {
      assert xs + ys == ys;
    } else {
      assert (xs + ys)[1..] == xs[1..] + ys;
      LeavingConcat(table, xs[1..], ys, p);
      LeavingCons(table, xs + ys, p);
      LeavingCons(table, xs, p);
    }
  }

  function LeavingOne(table: seq<Route>, d: Datagram, p: nat): seq<Outbound> {
    var o := Forward(table, d);
    if o.Some? && o.value.port == p then [o.value] else []
  }

  lemma LeavingCons(table: seq<Route>, ds: seq<Datagram>, p: nat)
    requires ds != []
    ensures Leaving(table, ds, p) == LeavingOne(table, ds[0], p) + Leaving(table, ds[1..], p)
  {
  }

  lemma {:induction false} RouteQueuePort(ports: seq<Port>, table: seq<Route>, ds: seq<Datagram>, p: nat)
    requires p < |ports|
    ensures RouteQueue(ports, table, ds)[p]
         == ports[p].(net := SendAll(ports[p].net, Leaving(table, ds, p)))
    decreases |ds|
  {
    if ds != [] {
      RouteQueuePort(Dispatch(ports, Forward(table, ds[0])), table, ds[1..], p);
      var o := Forward(table, ds[0]);
      if o.Some? && o.value.port == p {
        assert ([o.value] + Leaving(table, ds[1..], p))[1..] == Leaving(table, ds[1..], p);
      } else {
        assert Leaving(table, ds, p) == Leaving(table, ds[1..], p);
      }
    }
  }

  lemma RouteQueueInboxes(ports: seq<Port>, table: seq<Route>, ds: seq<Datagram>)
    ensures forall j :: 0 <= j < |ports| ==> RouteQueue(ports, table, ds)[j].inbox == ports[j].inbox
  {
    forall j | 0 <= j < |ports|
      ensures RouteQueue(ports, table, ds)[j].inbox == ports[j].inbox
    {
      RouteQueuePort(ports, table, ds, j);
    }
  }

  lemma {:induction false} QueuedSame(xs: seq<Port>, ys: seq<Port>, i: nat)
    requires |xs| == |ys| && forall j :: i <= j < |xs| ==> xs[j].inbox == ys[j].inbox
    ensures Queued(xs, i) == Queued(ys, i)
    decreases |xs| - i
  {
    if i < |xs| {
      QueuedSame(xs, ys, i + 1);
    }
  }

  /**
   * Routing drains every queue and sends, on each port, exactly the datagrams that leave there, once
   * each, in the order they were queued.
   */
  lemma {:induction false} RouteFromPort(ports: seq<Port>, table: seq<Route>, i: nat, p: nat)
    requires p < |ports|
    ensures RouteFrom(ports, table, i)[p]
         == Port(SendAll(ports[p].net, Leaving(table, Queued(ports, i), p)), if p < i then ports[p].inbox else [])
    decreases |ports| - i
  {
    if i < |ports| {
      var inbox := ports[i].inbox;
      var next := WithInbox(RouteQueue(ports, table, inbox), i, []);
      RouteQueuePort(ports, table, inbox, p);
      RouteQueueInboxes(ports, table, inbox);
      QueuedSame(next, ports, i + 1);
      RouteFromPort(next, table, i + 1, p);
      LeavingConcat(table, inbox, Queued(ports, i + 1), p);
      SendAllConcat(ports[p].net, Leaving(table, inbox, p), Leaving(table, Queued(ports, i + 1), p));
    }
  }
}
