/** The network interface as a value: address cache, request timers and datagrams waiting for an address. */
module Arp {
  import opened Words
  import Wire = IPv4

  type Datagram = Wire.Datagram

  /** An IPv4 address. */
  datatype Ip = Ip(numeric: bv32)

  function Destination(d: Datagram): Ip {
    Ip(d.header.dst as bv32)
  }

  type Mac = x: int | 0 <= x < 0x1_0000_0000_0000

  const BROADCAST: Mac := 0xffff_ffff_ffff
  const ARP_REQ_TIME: nat := 5000
  const CACHE_VALID_TIME: nat := 30000

  datatype Opcode = Request | Reply

  datatype Message = Message(opcode: Opcode, senderMac: Mac, senderIp: Ip, targetMac: Mac, targetIp: Ip)

  /** A frame coming in: bytes, or what parsing them as ARP yields. Every type but IPv4 is read as ARP. */
  datatype Content = IPv4(payload: seq<byte>) | NotIPv4(msg: Option<Message>)

  datatype Incoming = Incoming(dst: Mac, content: Content)

  /** A frame going out. `hop` is the address the datagram was for; it is not part of the frame. */
  datatype Outgoing =
    | DatagramFrame(src: Mac, dst: Mac, dgram: Datagram, hop: Ip)
    | ArpFrame(src: Mac, dst: Mac, msg: Message)

  datatype Waiting = Waiting(dgram: Datagram, hop: Ip)

  datatype Entry = Entry(mac: Mac, age: nat)

  datatype Interface = Interface(
    mac: Mac,
    ip: Ip,
    cache: map<Ip, Entry>,
    timers: map<Ip, nat>,
    pending: seq<Waiting>,
    frames: seq<Outgoing>)

  function NewInterface(mac: Mac, ip: Ip): Interface {
    Interface(mac, ip, map[], map[], [], [])
  }

  function ArpRequest(n: Interface, hop: Ip): Outgoing {
    ArpFrame(n.mac, BROADCAST, Message(Request, n.mac, n.ip, 0, hop))
  }

  function ArpReply(n: Interface, msg: Message): Outgoing {
    ArpFrame(n.mac, msg.senderMac, Message(Reply, n.mac, n.ip, msg.senderMac, msg.senderIp))
  }

  predicate RequestDue(n: Interface, hop: Ip) {
    hop !in n.timers || n.timers[hop] >= ARP_REQ_TIME
  }

  function SendDatagram(n: Interface, d: Datagram, hop: Ip): Interface {
    if hop in n.cache then
      n.(frames := n.frames + [DatagramFrame(n.mac, n.cache[hop].mac, d, hop)])
    else
      var asked :=
        if RequestDue(n, hop) then n.(timers := n.timers[hop := 0], frames := n.frames + [ArpRequest(n, hop)]) else n;
      asked.(pending := n.pending + [Waiting(d, hop)])
  }

  function For(ws: seq<Waiting>, hop: Ip): seq<Datagram> {
    if ws == [] then []
    else (if ws[0].hop == hop then [ws[0].dgram] else []) + For(ws[1..], hop)
  }

  lemma {:induction false} ForAppend(ws: seq<Waiting>, x: Waiting, hop: Ip)
    ensures For(ws + [x], hop) == For(ws, hop) + if x.hop == hop then [x.dgram] else []
  {
    if ws != [] {
      ForAppend(ws[1..], x, hop);
      assert (ws + [x])[1..] == ws[1..] + [x];
    } else {
      assert ([x] + [])[1..] == [];
    }
  }

  function Others(ws: seq<Waiting>, hop: Ip): seq<Waiting> {
    if ws == [] then []
    else (if ws[0].hop == hop then [] else [ws[0]]) + Others(ws[1..], hop)
  }

  function Framed(n: Interface, ds: seq<Datagram>, hop: Ip): seq<Outgoing>
    requires hop in n.cache
  {
    if ds == [] then [] else [DatagramFrame(n.mac, n.cache[hop].mac, ds[0], hop)] + Framed(n, ds[1..], hop)
  }

  function Known(n: Interface, msg: Message): Interface {
    n.(cache := n.cache[msg.senderIp := Entry(msg.senderMac, 0)], timers := n.timers - {msg.senderIp})
  }

  /** Learns the sender's address, stops asking for it and sends what was waiting for it. */
  function Learn(n: Interface, msg: Message): Interface {
    var known := Known(n, msg);
    known.(pending := Others(n.pending, msg.senderIp),
           frames := n.frames + Framed(known, For(n.pending, msg.senderIp), msg.senderIp))
  }

  predicate ForUs(n: Interface, f: Incoming) {
    f.dst == BROADCAST || f.dst == n.mac
  }

  /** Frames that carry a readable ARP message for us. */
  predicate Teaches(n: Interface, f: Incoming) {
    ForUs(n, f) && f.content.NotIPv4? && f.content.msg.Some?
  }

  function Receive(n: Interface, f: Incoming): Interface {
    if !Teaches(n, f) then n
    else
      var msg := f.content.msg.value;
      var learned := Learn(n, msg);
      if msg.opcode.Request? && msg.targetIp == n.ip
      then learned.(frames := learned.frames + [ArpReply(n, msg)])
      else learned
  }

  function Parsed(payload: seq<byte>): Option<Datagram> {
    var r := Wire.ParseDatagram(Wire.NEW_HEADER, payload);
    if r.result.NoError? then Some(r.dgram) else None
  }

  function PassedUp(n: Interface, f: Incoming): Option<Datagram> {
    if ForUs(n, f) && f.content.IPv4? then Parsed(f.content.payload) else None
  }

  function Aged(e: Entry, ms: nat): Entry {
    e.(age := e.age + ms)
  }

  /** Every age grows; an entry that reaches its time limit goes. */
  function Tick(n: Interface, ms: nat): Interface {
    n.(cache := map ip: Ip | ip in n.cache && n.cache[ip].age + ms < CACHE_VALID_TIME :: Aged(n.cache[ip], ms),
       timers := map ip: Ip | ip in n.timers :: Later(n.timers[ip], ms))
  }

  function Later(time: nat, ms: nat): nat {
    time + ms
  }
}
