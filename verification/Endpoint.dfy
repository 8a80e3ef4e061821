/** One PRUDP-Lite connection as a value (nextendo-nex/endpoint.go): what every received packet, every
    message sent and every turn of a sending goroutine makes of it. */
module Endpoint {
  import opened Bytes
  import opened Fragments
  import opened PrudpLite
  import Rmc

  // ---- connections and servers --------------------------------------------

  datatype Ports = Ports(srcType: u8, srcPort: u8, dstType: u8, dstPort: u8)

  /** A payload too long for one fragment, as the goroutine sending it holds it: all of it, what is left of it
      and the id of its next fragment. */
  datatype Task = Task(data: bytes, rest: bytes, id: u8)

  datatype State = Connecting | Connected | Closed

  datatype User = User(pid: u64, cid: u32)

  /** What an accepted CONNECT says of the client: both ids with a ticket, the PID alone without one, neither on
      an endpoint that asks for none; and the answer to it. */
  datatype Login = Login(pid: Option<u64>, cid: Option<u32>, response: bytes)

  function Named(u: User, g: Login): User {
    User(if g.pid.Some? then g.pid.value else u.pid, if g.cid.Some? then g.cid.value else u.cid)
  }

  /** A connection without its receive buffer. `sent` lists the packets handed to the transport, `pending`
      those not acknowledged and `batch` those a retransmission has yet to send; `listed` counts the ids under
      which the endpoint lists the connection, `loops` its retransmission goroutines, `tasks` are its sending
      goroutines; `said` lists the messages given to send, `ended` the payloads whose sending has ended. */
  datatype Link = Link(
    inbound: Inbound, sent: seq<Packet>, outReliable: u16, pending: map<u16, Packet>, batch: seq<Packet>,
    state: State, ports: Ports, sig: bytes, minor: u8, funcs: u32,
    user: User, listed: nat, loops: nat,
    tasks: seq<Task>, said: seq<Rmc.Message>, ended: seq<bytes>)

  function NewLink(): Link {
    Link(Inbound([], []), [], 1, map[], [], Connecting, Ports(0, 0, 0, 0), [], 0, 0, User(0, 0), 0, 0, [], [], [])
  }

  /** What a connection meets in its server: settings, the connection signatures drawn, the outcome of
      the signature and ticket of a CONNECT, which protocols have a handler, the messages a handler sends on
      the connection for its n-th payload, and the packets a custom packet handler sends. */
  datatype Server = Server(
    fragmentSize: int, minorVersion: int, functions: u32,
    sign: nat -> bytes, accept: (bytes, Packet) -> Option<Login>,
    registered: set<u16>, fallback: bool, respond: (nat, Rmc.Message) -> seq<Rmc.Message>,
    custom: Packet -> seq<Packet>)

  function Size(srv: Server): (n: nat)
    ensures n > 0
  {
    EffectiveSize(srv.fragmentSize)
  }

  // ---- acknowledgements ---------------------------------------------------

  /** What an acknowledgement covers: every id up to `base`, and each id of `extra`. */
  datatype Ack = Ack(base: u16, extra: seq<u16>)

  predicate Covers(a: Ack, id: u16) { id <= a.base || id in a.extra }

  function Acked<T>(pending: map<u16, T>, a: Ack): map<u16, T> {
    map id | id in pending && !Covers(a, id) :: pending[id]
  }

  /** At most `count` u16 ids read from `pl` at `off`, stopping where the payload ends. */
  function ExtraIds(pl: bytes, off: nat, count: nat): seq<u16>
    decreases count
  {
    if count == 0 || off + 2 > |pl| then []
    else [Word(pl, off)] + ExtraIds(pl, off + 2, count - 1)
  }

  /** The acknowledgement a DATA packet carries, if it is one. A MULTI-ACK shorter than its header
      acknowledges nothing. */
  function AckOf(p: Packet): Option<Ack> {
    if HasBit(p.flags, FLAG_MULTI_ACK) then
      if |p.payload| >= 4 then Some(Ack(Word(p.payload, 2), ExtraIds(p.payload, 4, p.payload[1]))) else None
    else if HasBit(p.flags, FLAG_ACK) then Some(Ack(p.packetID, []))
    else None
  }

  predicate IsAck(p: Packet) { HasBit(p.flags, FLAG_MULTI_ACK) || HasBit(p.flags, FLAG_ACK) }

  // ---- sending ------------------------------------------------------------

  const DATA_FLAGS: u16 := FLAG_RELIABLE + FLAG_NEED_ACK

  function Transmit(l: Link, p: Packet): Link { l.(sent := l.sent + [p]) }

  function DataPacket(l: Link, f: Fragment): Packet {
    Packet(DATA, DATA_FLAGS, l.ports.srcType, l.ports.srcPort, l.ports.dstType, l.ports.dstPort,
           f.id, l.outReliable, [], [], 0, 0, f.chunk)
  }

  function SendFragment(l: Link, f: Fragment): Link {
    var p := DataPacket(l, f);
    Transmit(l, p).(pending := l.pending[l.outReliable := p], outReliable := (l.outReliable + 1) % 0x1_0000)
  }

  /** A message in one fragment is sent at once; a longer one gets a goroutine of its own. */
  function Say(l: Link, size: nat, m: Rmc.Message): Link {
    var data := Rmc.Encode(m);
    var l1 := l.(said := l.said + [m]);
    if |data| <= size then SendFragment(l1, Fragment(data, 0)).(ended := l.ended + [data])
    else l1.(tasks := l1.tasks + [Task(data, data, 1)])
  }

  function SayAll(l: Link, size: nat, ms: seq<Rmc.Message>): Link
    decreases |ms|
  {
    if ms == [] then l else SayAll(Say(l, size, ms[0]), size, ms[1..])
  }

  function Without(ts: seq<Task>, k: nat): seq<Task>
    requires k < |ts|
  {
    ts[..k] + ts[k + 1..]
  }

  /** One turn of a sending goroutine: it gives up on a closed connection, else sends one fragment. An id
      that has wrapped to zero ends the send. */
  function Turn(l: Link, size: nat, k: nat): Link
    requires size > 0 && k < |l.tasks|
  {
    var t := l.tasks[k];
    if l.state.Closed? then l.(tasks := Without(l.tasks, k))
    else if |t.rest| <= size then Finish(l, k, Fragment(t.rest, 0))
    else if t.id == 0 then Finish(l, k, Fragment(t.rest[..size], 0))
    else SendFragment(l.(tasks := l.tasks[k := Task(t.data, t.rest[size..], (t.id + 1) % 0x100)]),
                      Fragment(t.rest[..size], t.id))
  }

  /** The last fragment of a payload, or the one that ends its sending. */
  function Finish(l: Link, k: nat, f: Fragment): Link
    requires k < |l.tasks|
  {
    SendFragment(l.(tasks := Without(l.tasks, k)), f).(ended := l.ended + [l.tasks[k].data])
  }

  // ---- retransmitting -----------------------------------------------------

  predicate ListsIds(order: seq<u16>, m: map<u16, Packet>) {
    && (forall id :: id in order ==> id in m) && (forall id :: id in m ==> id in order)
    && (forall i, j :: 0 <= i < j < |order| ==> order[i] != order[j])
  }

  function Picked(m: map<u16, Packet>, order: seq<u16>): seq<Packet>
    requires forall id :: id in order ==> id in m
  {
    if order == [] then []
    else
      assert order[|order| - 1] in order && forall id :: id in order[..|order| - 1] ==> id in order;
      Picked(m, order[..|order| - 1]) + [m[order[|order| - 1]]]
  }

  /** A tick of a retransmission goroutine: it ends on a closed connection, else copies the pending packets, in
      some order, to send them one by one afterwards. */
  function Tick(l: Link, order: seq<u16>): Link
    requires l.loops > 0 && (l.state.Closed? || ListsIds(order, l.pending))
  {
    if l.state.Closed? then l.(loops := l.loops - 1) else l.(batch := l.batch + Picked(l.pending, order))
  }

  /** One of the copied packets goes out again, whatever has been acknowledged or closed since. */
  function Resend(l: Link, k: nat): Link
    requires k < |l.batch|
  {
    Transmit(l, l.batch[k]).(batch := l.batch[..k] + l.batch[k + 1..])
  }

  // ---- receiving ----------------------------------------------------------

  function AckPacket(l: Link, p: Packet): Packet {
    Packet(p.kind, FLAG_ACK, l.ports.srcType, l.ports.srcPort, l.ports.dstType, l.ports.dstPort,
           p.fragmentID, p.packetID, [], [], 0, 0, [])
  }

  function AckIfNeeded(l: Link, p: Packet): Link {
    if HasBit(p.flags, FLAG_NEED_ACK) then Transmit(l, AckPacket(l, p)) else l
  }

  function FragmentOf(p: Packet): Fragment { Fragment(p.payload, p.fragmentID) }

  /** A packet that carries a fragment of a payload. */
  predicate IsFragment(p: Packet) { p.kind == DATA && !IsAck(p) }

  const NOT_IMPLEMENTED: u32 := 0x8001_0002

  /** The messages sent for the n-th payload, a request: its handler's, or a refusal where it has none. */
  function Answers(srv: Server, n: nat, req: Rmc.Message): seq<Rmc.Message> {
    if req.protocol in srv.registered || srv.fallback then srv.respond(n, req)
    else [Rmc.Failure(req.protocol, req.callID, NOT_IMPLEMENTED)]
  }

  /** What a complete payload leads to: nothing unless it parses to a request. */
  function AnswersTo(srv: Server, n: nat, payload: bytes): seq<Rmc.Message> {
    match Rmc.Parse(payload)
    case None => []
    case Some(m) => if m.Request? then Answers(srv, n, m) else []
  }

  function OnFragment(srv: Server, l: Link, p: Packet): Link {
    var l1 := AckIfNeeded(l, p).(inbound := Absorb(l.inbound, FragmentOf(p)));
    if p.fragmentID != 0 then l1
    else SayAll(l1, Size(srv), AnswersTo(srv, |l1.inbound.delivered|, l.inbound.fragBuf + p.payload))
  }

  function OnData(srv: Server, l: Link, p: Packet): Link {
    if IsAck(p) then
      match AckOf(p)
      case None => l
      case Some(a) => l.(pending := Acked(l.pending, a))
    else OnFragment(srv, l, p)
  }

  const ACK_SIZED: u16 := FLAG_ACK + FLAG_HAS_SIZE

  function Smaller(a: int, b: u8): u8 { if a < b then a % 0x100 else b }

  /** The bits two numbers share. */
  function Shared(a: nat, b: nat): (r: nat)
    ensures r <= b
  {
    if a == 0 || b == 0 then 0 else 2 * Shared(a / 2, b / 2) + a % 2 * (b % 2)
  }

  /** A SYN teaches the ports, draws a connection signature and settles what both sides support. */
  function Learned(srv: Server, l: Link, p: Packet): Link {
    l.(ports := Ports(p.destType, p.destPort, p.sourceType, p.sourcePort), sig := srv.sign(|l.sent|),
       minor := Smaller(srv.minorVersion, p.minorVersion), funcs := Shared(srv.functions, p.supportedFunc))
  }

  function OnSyn(srv: Server, l: Link, p: Packet): Link {
    var l1 := Learned(srv, l, p);
    Transmit(l1, SynAck(l1))
  }

  function SynAck(l: Link): Packet {
    Packet(SYN, ACK_SIZED, l.ports.srcType, l.ports.srcPort, l.ports.dstType, l.ports.dstPort,
           0, 0, [], l.sig, l.minor, l.funcs, [])
  }

  /** An accepted CONNECT says who the client is, opens the connection, lists it under a new id and starts a
      retransmission goroutine. */
  function Admitted(l: Link, login: Login): Link {
    l.(user := Named(l.user, login), state := Connected, listed := l.listed + 1, loops := l.loops + 1)
  }

  /** A CONNECT whose signature or ticket is not accepted is ignored. */
  function OnConnect(srv: Server, l: Link, p: Packet): Link {
    match srv.accept(l.sig, p)
    case None => l
    case Some(login) => Admitted(Transmit(l, ConnectAck(l, login.response)), login)
  }

  function ConnectAck(l: Link, response: bytes): Packet {
    Packet(CONNECT, ACK_SIZED, l.ports.srcType, l.ports.srcPort, l.ports.dstType, l.ports.dstPort,
           0, 1, [], [], l.minor, l.funcs, response)
  }

  /** Closing, once, takes the connection's latest id, if it ever got one, off the endpoint's list. */
  function Shut(l: Link): Link {
    if l.state.Closed? then l else l.(state := Closed, listed := if l.listed == 0 then 0 else l.listed - 1)
  }

  function OnPacket(srv: Server, l: Link, p: Packet): Link {
    if p.kind == SYN then (if HasBit(p.flags, FLAG_ACK) then l else OnSyn(srv, l, p))
    else if p.kind == CONNECT then (if HasBit(p.flags, FLAG_ACK) then l else OnConnect(srv, l, p))
    else if p.kind == DATA then OnData(srv, l, p)
    else if p.kind == PING then (if HasBit(p.flags, FLAG_ACK) then l else AckIfNeeded(l, p))
    else if p.kind == DISCONNECT then (if HasBit(p.flags, FLAG_ACK) then l else Shut(AckIfNeeded(l, p)))
    else l.(sent := l.sent + srv.custom(p))
  }

  function OnPackets(srv: Server, l: Link, ps: seq<Packet>): Link
    decreases |ps|
  {
    if ps == [] then l else OnPackets(srv, OnPacket(srv, l, ps[0]), ps[1..])
  }

  lemma {:induction false} OnPacketsAppend(srv: Server, l: Link, a: seq<Packet>, b: seq<Packet>)
    ensures OnPackets(srv, l, a + b) == OnPackets(srv, OnPackets(srv, l, a), b)
    decreases |a|
  {
    hide OnPacket;
    if a == [] {
      assert a + b == b;
    } else {
      assert (a + b)[1..] == a[1..] + b;
      OnPacketsAppend(srv, OnPacket(srv, l, a[0]), a[1..], b);
    }
  }

  datatype Fed = Fed(recvBuf: bytes, link: Link)

  /** One read from the transport: a framing error drops the buffer and everything decoded from it. */
  function FeedChunk(srv: Server, f: Fed, chunk: bytes): Fed {
    var d := Decode(f.recvBuf + chunk);
    if d.failed then f.(recvBuf := []) else Fed(d.rest, OnPackets(srv, f.link, d.packets))
  }

  function FeedAll(srv: Server, f: Fed, chunks: seq<bytes>): Fed
    decreases |chunks|
  {
    if chunks == [] then f else FeedAll(srv, FeedChunk(srv, f, chunks[0]), chunks[1..])
  }

  /** Feeding error-free bytes in any chunks is decoding them at once and handling the packets in order. */
  lemma {:induction false} FeedAnyChunks(srv: Server, f: Fed, chunks: seq<bytes>)
    requires Decode(f.recvBuf).packets == []
    requires !Decode(f.recvBuf + Flatten(chunks)).failed
    ensures var d := Decode(f.recvBuf + Flatten(chunks));
            FeedAll(srv, f, chunks) == Fed(d.rest, OnPackets(srv, f.link, d.packets))
    decreases |chunks|
  {
    hide DecodeFirst;
    hide OnPacket;
    if chunks == [] {
      assert f.recvBuf + [] == f.recvBuf;
    } else {
      var a, b := f.recvBuf + chunks[0], Flatten(chunks[1..]);
      Assoc(f.recvBuf, chunks[0], b);
      ChunkIndependent(a, b);
      RestIsPartial(a);
      OnPacketsAppend(srv, f.link, Decode(a).packets, Decode(Decode(a).rest + b).packets);
      FeedAnyChunks(srv, FeedChunk(srv, f, chunks[0]), chunks[1..]);
    }
  }

  lemma {:induction false} RestIsPartial(b: bytes)
    requires !Decode(b).failed
    ensures DecodeFirst(Decode(b).rest).Partial?
    ensures Decode(Decode(b).rest) == Decoded([], Decode(b).rest, false)
    decreases |b|
  {
    hide DecodeFirst;
    var first := DecodeFirst(b);
    if first.Whole? { RestIsPartial(b[first.size..]); }
  }

  // ---- what reaches the reassembly buffer ---------------------------------

  /** The fragments a sequence of packets carries; everything else on the wire is control traffic. */
  function FragmentsIn(ps: seq<Packet>): seq<Fragment> {
    if ps == [] then []
    else (if IsFragment(ps[0]) then [FragmentOf(ps[0])] else []) + FragmentsIn(ps[1..])
  }

  lemma SayKeepsInbound(l: Link, size: nat, m: Rmc.Message)
    ensures Say(l, size, m).inbound == l.inbound && Say(l, size, m).ports == l.ports
    ensures Say(l, size, m).state == l.state && Say(l, size, m).funcs == l.funcs && Say(l, size, m).sig == l.sig
    ensures Say(l, size, m).listed == l.listed
  {
  }

  lemma {:induction false} SayAllKeepsInbound(l: Link, size: nat, ms: seq<Rmc.Message>)
    ensures SayAll(l, size, ms).inbound == l.inbound && SayAll(l, size, ms).ports == l.ports
    ensures SayAll(l, size, ms).state == l.state && SayAll(l, size, ms).funcs == l.funcs
    ensures SayAll(l, size, ms).sig == l.sig && SayAll(l, size, ms).listed == l.listed
    decreases |ms|
  {
    hide Say;
    if ms == [] {
    } else {
      SayKeepsInbound(l, size, ms[0]);
      SayAllKeepsInbound(Say(l, size, ms[0]), size, ms[1..]);
    }
  }

  lemma PacketInbound(srv: Server, l: Link, p: Packet)
    ensures OnPacket(srv, l, p).inbound == if IsFragment(p) then Absorb(l.inbound, FragmentOf(p)) else l.inbound
  {
    hide Absorb;
    hide HasBit;
    hide AnswersTo;
    if IsFragment(p) && p.fragmentID == 0 {
      var l1 := AckIfNeeded(l, p).(inbound := Absorb(l.inbound, FragmentOf(p)));
      SayAllKeepsInbound(l1, Size(srv),
                         AnswersTo(srv, |l1.inbound.delivered|, l.inbound.fragBuf + p.payload));
    }
    hide SayAll;
  }

  /** Whatever else is on the wire, a receiver reassembles exactly the fragments on it. */
  lemma {:induction false} FragmentsOnly(srv: Server, l: Link, ps: seq<Packet>)
    ensures OnPackets(srv, l, ps).inbound == AbsorbAll(l.inbound, FragmentsIn(ps))
    decreases |ps|
  {
    hide OnPacket;
    hide Absorb;
    hide IsFragment;
    if ps == [] {
    } else {
      PacketInbound(srv, l, ps[0]);
      FragmentsOnly(srv, OnPacket(srv, l, ps[0]), ps[1..]);
      var tail := FragmentsIn(ps[1..]);
      assert [FragmentOf(ps[0])] + tail == FragmentsIn(ps) || tail == FragmentsIn(ps);
      assert ([FragmentOf(ps[0])] + tail)[1..] == tail;
    }
  }
}
