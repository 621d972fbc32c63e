/** The network interface as the source runs it. */
module NetworkInterfaces {
  import opened Words
  import opened Arp
  import Wire = IPv4

  // ---------- taking a list apart from the front ----------

  lemma {:induction false} OthersAppend(ws: seq<Waiting>, x: Waiting, hop: Ip)
    ensures Others(ws + [x], hop) == Others(ws, hop) + if x.hop == hop then [] else [x]
  {
    if ws != [] {
      OthersAppend(ws[1..], x, hop);
      assert (ws + [x])[1..] == ws[1..] + [x];
    } else {
      assert ([x] + [])[1..] == [];
    }
  }

  lemma {:induction false} FramedAppend(n: Interface, ds: seq<Datagram>, d: Datagram, hop: Ip)
    requires hop in n.cache
    ensures Framed(n, ds + [d], hop) == Framed(n, ds, hop) + [DatagramFrame(n.mac, n.cache[hop].mac, d, hop)]
    decreases |ds|
  {
    if ds != [] {
      FramedAppend(n, ds[1..], d, hop);
      assert (ds + [d])[1..] == ds[1..] + [d];
    } else {
      assert ([d] + [])[1..] == [];
    }
  }

  /** The state of the flushing loop after `j` elements of the original list. */
  ghost predicate Flushing(n: Interface, m: Interface, all: seq<Waiting>, hop: Ip, j: nat, i: nat)
    requires hop in n.cache
  {
    && j <= |all| && i == |Others(all[..j], hop)|
    && m == n.(pending := Others(all[..j], hop) + all[j..], frames := n.frames + Framed(n, For(all[..j], hop), hop))
  }

  lemma FlushNext(n: Interface, m: Interface, all: seq<Waiting>, hop: Ip, j: nat, i: nat)
    requires hop in n.cache && Flushing(n, m, all, hop, j, i) && j < |all|
    ensures i < |m.pending| && m.pending[i] == all[j]
    ensures var sent := m.frames + [DatagramFrame(n.mac, n.cache[hop].mac, all[j].dgram, hop)];
            if all[j].hop == hop
            then Flushing(n, m.(pending := m.pending[..i] + m.pending[i + 1..], frames := sent), all, hop, j + 1, i)
            else Flushing(n, m, all, hop, j + 1, i + 1)
  {
    if all[j].hop == hop {
      FlushSends(n, m, all, hop, j, i);
    } else {
      FlushKeeps(n, m, all, hop, j, i);
    }
  }

  lemma FlushSends(n: Interface, m: Interface, all: seq<Waiting>, hop: Ip, j: nat, i: nat)
    requires hop in n.cache && Flushing(n, m, all, hop, j, i) && j < |all| && all[j].hop == hop
    ensures i < |m.pending|
    ensures var sent := m.frames + [DatagramFrame(n.mac, n.cache[hop].mac, all[j].dgram, hop)];
            Flushing(n, m.(pending := m.pending[..i] + m.pending[i + 1..], frames := sent), all, hop, j + 1, i)
  {
    var before, x := all[..j], all[j];
    assert all[..j + 1] == before + [x] && all[j..] == [x] + all[j + 1..];
    OthersAppend(before, x, hop);
    ForAppend(before, x, hop);
    FramedAppend(n, For(before, hop), x.dgram, hop);
  }

  lemma FlushKeeps(n: Interface, m: Interface, all: seq<Waiting>, hop: Ip, j: nat, i: nat)
    requires hop in n.cache && Flushing(n, m, all, hop, j, i) && j < |all| && all[j].hop != hop
    ensures Flushing(n, m, all, hop, j + 1, i + 1)
  {
    var before, x := all[..j], all[j];
    assert all[..j + 1] == before + [x] && all[j..] == [x] + all[j + 1..];
    OthersAppend(before, x, hop);
    ForAppend(before, x, hop);
    assert Others(before, hop) + [x] + all[j + 1..] == Others(before, hop) + all[j..];
    assert For(before, hop) + [] == For(before, hop);
  }

  class NetworkInterface {
    const ethernetAddress: Mac
    const ipAddress: Ip
    var framesOut: seq<Outgoing>
    var cache: map<Ip, Entry>
    var queue: seq<Waiting>
    var arpTimer: map<Ip, nat>

    ghost function Value(): Interface
      reads this
    {
      Interface(ethernetAddress, ipAddress, cache, arpTimer, queue, framesOut)
    }

    constructor (mac: Mac, ip: Ip)
      ensures Value() == NewInterface(mac, ip)
    {
      ethernetAddress, ipAddress := mac, ip;
      framesOut, cache, queue, arpTimer := [], map[], [], map[];
    }

    method Send(d: Datagram, hop: Ip)
      modifies this
      ensures Value() == SendDatagram(old(Value()), d, hop)
    {
      if hop in cache {
        framesOut := framesOut + [DatagramFrame(ethernetAddress, cache[hop].mac, d, hop)];
      } else {
        if hop !in arpTimer || arpTimer[hop] >= ARP_REQ_TIME {
          arpTimer := arpTimer[hop := 0];
          var request := Message(Request, ethernetAddress, ipAddress, 0, hop);
          framesOut := framesOut + [ArpFrame(ethernetAddress, BROADCAST, request)];
        }
        queue := queue + [Waiting(d, hop)];
      }
    }

    method ReceiveFrame(f: Incoming) returns (up: Option<Datagram>)
      modifies this
      ensures Value() == Receive(old(Value()), f)
      ensures up == PassedUp(old(Value()), f)
    {
      if !(f.dst == BROADCAST || f.dst == ethernetAddress) {
        return None;
      }
      match f.content
      case IPv4(payload) =>
        var result, dgram := Wire.ReadDatagram(Wire.NEW_HEADER, payload);
        return if result.NoError? then Some(dgram) else None;
      case NotIPv4(parsed) =>
        if parsed.None? {
          return None;
        }
        var msg := parsed.value;
        cache := cache[msg.senderIp := Entry(msg.senderMac, 0)];
        if msg.senderIp in arpTimer {
          arpTimer := arpTimer - {msg.senderIp};
        }
        assert arpTimer == old(arpTimer) - {msg.senderIp};
        FlushQueue(msg.senderIp);
        if msg.opcode.Request? && msg.targetIp == ipAddress {
          var reply := Message(Reply, ethernetAddress, ipAddress, msg.senderMac, msg.senderIp);
          framesOut := framesOut + [ArpFrame(ethernetAddress, msg.senderMac, reply)];
        }
        return None;
    }

    /** Sends what waits for `hop`, erasing it from the list while walking over it. */
    method FlushQueue(hop: Ip)
      requires hop in cache
      modifies this
      ensures Value() == old(Value()).(pending := Others(old(queue), hop),
                                       frames := old(framesOut) + Framed(old(Value()), For(old(queue), hop), hop))
    {
      ghost var n, all, j := Value(), queue, 0;
      var i := 0;
      assert all[..0] == [];
      while i < |queue|
        invariant Flushing(n, Value(), all, hop, j, i)
        decreases |all| - j
      {
        assert j < |all|;
        FlushNext(n, Value(), all, hop, j, i);
        if queue[i].hop == hop {
          Send(queue[i].dgram, hop);
          queue := queue[..i] + queue[i + 1..];
        } else {
          i := i + 1;
        }
        j := j + 1;
      }
      assert j == |all| && all[..j] == all;
    }

    method Advance(ms: nat)
      modifies this
      ensures Value() == Tick(old(Value()), ms)
    {
      var expired := AgeCache(ms);
      Erase(expired);
      AgeTimers(ms);
      assert cache == Tick(old(Value()), ms).cache;
      assert arpTimer == Tick(old(Value()), ms).timers;
    }

    method AgeCache(ms: nat) returns (expired: seq<Ip>)
      modifies this`cache
      ensures cache.Keys == old(cache.Keys)
      ensures forall ip :: ip in cache ==> cache[ip] == Aged(old(cache)[ip], ms)
      ensures forall ip :: ip in expired <==> ip in cache && cache[ip].age >= CACHE_VALID_TIME
    {
      expired := [];
      var todo := cache.Keys;
      while todo != {}
        invariant todo <= cache.Keys == old(cache.Keys)
        invariant forall ip :: ip in todo ==> cache[ip] == old(cache)[ip]
        invariant forall ip :: ip in cache && ip !in todo ==> cache[ip] == Aged(old(cache)[ip], ms)
        invariant forall ip :: ip in expired <==> ip in cache && ip !in todo && cache[ip].age >= CACHE_VALID_TIME
        decreases todo
      {
        var k :| k in todo;
        cache := cache[k := Aged(cache[k], ms)];
        if cache[k].age >= CACHE_VALID_TIME {
          expired := expired + [k];
        }
        todo := todo - {k};
      }
    }

    method Erase(expired: seq<Ip>)
      modifies this`cache
      ensures forall ip :: ip in cache <==> ip in old(cache) && ip !in expired
      ensures forall ip :: ip in cache ==> cache[ip] == old(cache)[ip]
    {
      for j := 0 to |expired|
        invariant forall ip :: ip in cache <==> ip in old(cache) && ip !in expired[..j]
        invariant forall ip :: ip in cache ==> cache[ip] == old(cache)[ip]
      {
        cache := cache - {expired[j]};
        assert expired[..j + 1] == expired[..j] + [expired[j]];
      }
      assert expired[..|expired|] == expired;
    }

    method AgeTimers(ms: nat)
      modifies this`arpTimer
      ensures arpTimer.Keys == old(arpTimer.Keys)
      ensures forall ip :: ip in arpTimer ==> arpTimer[ip] == old(arpTimer)[ip] + ms
    {
      var todo := arpTimer.Keys;
      while todo != {}
        invariant todo <= arpTimer.Keys == old(arpTimer.Keys)
        invariant forall ip :: ip in todo ==> arpTimer[ip] == old(arpTimer)[ip]
        invariant forall ip :: ip in arpTimer && ip !in todo ==> arpTimer[ip] == old(arpTimer)[ip] + ms
        decreases todo
      {
        var k :| k in todo;
        arpTimer := arpTimer[k := arpTimer[k] + ms];
        todo := todo - {k};
      }
    }
  }
}
