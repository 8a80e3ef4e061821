/** The mutable connection of nextendo-nex/endpoint.go, proved against the functions of module Endpoint.

    Frames are handed to the transport encoded and kept encoded for retransmission; ghost fields hold the
    packets they encode. */
module Connections {
  import opened Bytes
  import opened Fragments
  import opened PrudpLite
  import opened Endpoint
  import Delivery
  import Transport
  import Rmc
  import Stream

  /** The requests among the delivered payloads: what a handler is called with. */
  function RequestsIn(ds: seq<bytes>): seq<Rmc.Message> {
    if ds == [] then []
    else
      var m := Rmc.Parse(ds[|ds| - 1]);
      RequestsIn(ds[..|ds| - 1]) + (if m.Some? && m.value.Request? then [m.value] else [])
  }

  lemma RequestsNext(ds: seq<bytes>, payload: bytes)
    ensures RequestsIn(ds + [payload]) == RequestsIn(ds)
         + (var m := Rmc.Parse(payload); if m.Some? && m.value.Request? then [m.value] else [])
  {
    hide Rmc.Parse;
    assert (ds + [payload])[..|ds|] == ds;
  }

  lemma SayNone(l: Link, size: nat)
    ensures SayAll(l, size, []) == l
  {
  }

  /** The frames are the encodings of the packets, in order. */
  predicate Frames(frames: seq<bytes>, ps: seq<Packet>) {
    |frames| == |ps| && forall i :: 0 <= i < |ps| ==> frames[i] == PrudpLite.Encode(ps[i])
  }

  predicate Encoded(frames: map<u16, bytes>, ps: map<u16, Packet>) {
    frames.Keys == ps.Keys && forall id :: id in ps ==> frames[id] == PrudpLite.Encode(ps[id])
  }

  lemma FramesNext(frames: seq<bytes>, ps: seq<Packet>, p: Packet)
    requires Frames(frames, ps)
    ensures Frames(frames + [PrudpLite.Encode(p)], ps + [p])
  {
    hide PrudpLite.Encode;
  }

  /** What goes over the transport is the encoding of the packets sent. */
  lemma {:induction false} WireBytes(frames: seq<bytes>, ps: seq<Packet>)
    requires Frames(frames, ps)
    ensures Flatten(frames) == EncodeAll(ps)
    decreases |ps|
  {
    hide PrudpLite.Encode;
    if ps == [] {
    } else {
      WireBytes(frames[1..], ps[1..]);
    }
  }

  lemma EncodedNext(frames: map<u16, bytes>, ps: map<u16, Packet>, id: u16, p: Packet)
    requires Encoded(frames, ps)
    ensures Encoded(frames[id := PrudpLite.Encode(p)], ps[id := p])
  {
    hide PrudpLite.Encode;
  }

  lemma EncodedAcked(frames: map<u16, bytes>, ps: map<u16, Packet>, a: Ack)
    requires Encoded(frames, ps)
    ensures Encoded(Acked(frames, a), Acked(ps, a))
  {
    hide PrudpLite.Encode;
    hide Covers;
  }

  lemma FramesAppend(a: seq<bytes>, ps: seq<Packet>, b: seq<bytes>, qs: seq<Packet>)
    requires Frames(a, ps) && Frames(b, qs)
    ensures Frames(a + b, ps + qs)
  {
    hide PrudpLite.Encode;
  }

  lemma FramesWithout(frames: seq<bytes>, ps: seq<Packet>, k: nat)
    requires Frames(frames, ps) && k < |ps|
    ensures Frames(frames[..k] + frames[k + 1..], ps[..k] + ps[k + 1..]) && frames[k] == PrudpLite.Encode(ps[k])
  {
    hide PrudpLite.Encode;
  }

  lemma PickedNext(m: map<u16, Packet>, order: seq<u16>, id: u16)
    requires (forall x :: x in order ==> x in m) && id in m
    ensures (forall x :: x in order + [id] ==> x in m) && Picked(m, order + [id]) == Picked(m, order) + [m[id]]
  {
    assert (order + [id])[..|order|] == order;
  }

  class Connection {
    const settings: Stream.Settings
    const server: Server
    var recvBuf: bytes
    var fragBuf: bytes
    var delivered: seq<bytes>
    var requests: seq<Rmc.Message>
    var sent: seq<bytes>
    var outReliable: u16
    var pending: map<u16, bytes>
    var state: State
    var ports: Ports
    var sig: bytes
    var minor: u8
    var funcs: u32
    var user: User
    var listed: nat
    var loops: nat
    var batch: seq<bytes>
    var tasks: seq<Task>
    ghost var packets: seq<Packet>
    ghost var kept: map<u16, Packet>
    ghost var queued: seq<Packet>
    ghost var said: seq<Rmc.Message>
    ghost var ended: seq<bytes>
    ghost var acts: seq<Transport.Act>

    /** The connection is what its acts so far make of a new one. */
    ghost predicate Valid()
      reads this
    {
      Holds() && Transport.Run(server, acts) == Some(View())
    }

    /** After fair acts only, what this connection has put on the wire tells any receiver exactly the payloads
        whose sending has ended, and these with the unsent ones are the messages given. */
    lemma Carries(other: Server, to: Link, chunks: seq<bytes>)
      requires Valid() && Transport.Proper(server) && Delivery.AllFair(server, acts)
      requires to.inbound.fragBuf == [] && Flatten(chunks) == Flatten(sent)
      ensures FeedAll(other, Fed([], to), chunks).recvBuf == []
      ensures FeedAll(other, Fed([], to), chunks).link.inbound.delivered == to.inbound.delivered + ended
      ensures multiset(Delivery.Encodings(said)) == multiset(ended) + multiset(Delivery.Datas(tasks))
    {
      hide Transport.Run;
      hide Transport.Proper;
      hide Delivery.AllFair;
      hide FeedAll;
      hide Rmc.Encode;
      WireBytes(sent, packets);
      Delivery.EndToEnd(server, acts, other, to, chunks);
    }

    /** Notes an act that has been carried out. */
    ghost method Log(a: Transport.Act, before: Link)
      requires Holds() && Transport.Run(server, acts) == Some(before)
      requires Transport.Enabled(before, a) && View() == Transport.Apply(server, before, a)
      modifies this`acts
      ensures Valid() && acts == old(acts) + [a]
    {
      hide Holds;
      hide Transport.Apply;
      hide Transport.Enabled;
      assert (acts + [a])[..|acts|] == acts;
      acts := acts + [a];
    }

    ghost function View(): Link
      reads this
    {
      Link(Inbound(fragBuf, delivered), packets, outReliable, kept, queued, state, ports, sig, minor, funcs,
           user, listed, loops, tasks, said, ended)
    }

    /** Frames and pool are the packets' encodings; every delivered payload that parses to a request has been
        dispatched, once and in order. */
    ghost predicate Holds()
      reads this`sent, this`packets, this`pending, this`kept, this`batch, this`queued, this`requests, this`delivered
    {
      && Frames(sent, packets) && Encoded(pending, kept) && Frames(batch, queued)
      && requests == RequestsIn(delivered)
    }

    constructor (s: Stream.Settings, srv: Server)
      ensures Valid() && recvBuf == [] && server == srv && View() == NewLink() && acts == []
    {
      settings, server := s, srv;
      recvBuf, fragBuf, delivered, requests, sent := [], [], [], [], [];
      outReliable, pending, state, ports := 1, map[], Connecting, Ports(0, 0, 0, 0);
      sig, minor, funcs, user, listed, loops := [], 0, 0, User(0, 0), 0, 0;
      batch, tasks := [], [];
      packets, kept, queued, said, ended, acts := [], map[], [], [], [], [];
    }

    method Feed(data: bytes)
      requires Valid()
      modifies this
      ensures Valid()
      ensures Fed(recvBuf, View()) == FeedChunk(server, old(Fed(recvBuf, View())), data)
    {
      hide OnPacket;
      hide Holds;
      hide Transport.Run;
      hide Transport.Heard;
      recvBuf := recvBuf + data;
      var ps, rest, failed := DecodePackets(recvBuf);
      if failed {
        recvBuf := [];
        return;
      }
      Transport.AllHeard(recvBuf);
      recvBuf := rest;
      ghost var before := View();
      for k := 0 to |ps|
        invariant Valid() && recvBuf == rest
        invariant OnPackets(server, View(), ps[k..]) == OnPackets(server, before, ps)
      {
        ghost var now := View();
        assert ps[k..][1..] == ps[k + 1..];
        HandlePacket(ps[k]);
        Log(Transport.Hear(ps[k]), now);
      }
      assert ps[|ps|..] == [];
    }

    method HandlePacket(p: Packet)
      requires Holds()
      modifies this
      ensures Holds() && recvBuf == old(recvBuf) && acts == old(acts)
      ensures View() == OnPacket(server, old(View()), p)
    {
      hide Holds;
      hide HasBit;
      hide OnSyn;
      hide OnConnect;
      hide OnData;
      hide AckPacket;
      if p.kind == SYN {
        if !HasBit(p.flags, FLAG_ACK) { ProcessSyn(p); }
      } else if p.kind == CONNECT {
        if !HasBit(p.flags, FLAG_ACK) { ProcessConnect(p); }
      } else if p.kind == DATA {
        ProcessData(p);
      } else if p.kind == PING {
        if HasBit(p.flags, FLAG_ACK) { return; }
        if HasBit(p.flags, FLAG_NEED_ACK) { SendAck(p); }
      } else if p.kind == DISCONNECT {
        if !HasBit(p.flags, FLAG_ACK) {
          if HasBit(p.flags, FLAG_NEED_ACK) { SendAck(p); }
          MarkClosed();
        }
      } else {
        SendAll(server.custom(p));
      }
    }

    method MarkClosed()
      requires Holds()
      modifies this`state, this`listed
      ensures Holds() && View() == Shut(old(View()))
    {
      if state == Closed { return; }
      state := Closed;
      if listed > 0 { listed := listed - 1; }
    }

    /** The transport closes the socket. */
    method Close()
      requires Valid()
      modifies this`state, this`listed, this`acts
      ensures Valid() && acts == old(acts) + [Transport.HangUp] && View() == Shut(old(View()))
    {
      hide Holds;
      hide Transport.Run;
      hide Shut;
      MarkClosed();
      Log(Transport.HangUp, old(View()));
    }

    /** Hands a frame to the transport. */
    method SendFrame(e: bytes, ghost p: Packet)
      requires Holds() && e == PrudpLite.Encode(p)
      modifies this`sent, this`packets
      ensures Holds() && View() == Transmit(old(View()), p)
    {
      FramesNext(sent, packets, p);
      hide Frames;
      hide Encoded;
      hide RequestsIn;
      hide PrudpLite.Encode;
      sent := sent + [e];
      packets := packets + [p];
    }

    method Send(p: Packet)
      requires Holds()
      modifies this`sent, this`packets
      ensures Holds() && View() == Transmit(old(View()), p)
    {
      hide Holds;
      hide PrudpLite.Encode;
      var e := EncodePacket(p);
      SendFrame(e, p);
    }

    method SendAll(ps: seq<Packet>)
      requires Holds()
      modifies this`sent, this`packets
      ensures Holds() && View() == old(View()).(sent := old(packets) + ps)
    {
      hide Holds;
      for i := 0 to |ps|
        invariant Holds() && View() == old(View()).(sent := old(packets) + ps[..i])
      {
        Send(ps[i]);
        assert old(packets) + ps[..i] + [ps[i]] == old(packets) + ps[..i + 1];
      }
      assert ps[..|ps|] == ps;
    }

    method SendAck(p: Packet)
      requires Holds()
      modifies this`sent, this`packets
      ensures Holds() && View() == Transmit(old(View()), AckPacket(old(View()), p))
    {
      hide Holds;
      Send(Packet(p.kind, FLAG_ACK, ports.srcType, ports.srcPort, ports.dstType, ports.dstPort,
                  p.fragmentID, p.packetID, [], [], 0, 0, []));
    }

    /** What a SYN teaches. */
    method Learn(p: Packet)
      requires Holds()
      modifies this`ports, this`sig, this`minor, this`funcs
      ensures Holds() && View() == Learned(server, old(View()), p)
    {
      FramesLength(sent, packets);
      hide Holds;
      hide Shared;
      hide Smaller;
      ports := Ports(p.destType, p.destPort, p.sourceType, p.sourcePort);
      sig := server.sign(|sent|);
      minor := Smaller(server.minorVersion, p.minorVersion);
      funcs := Shared(server.functions, p.supportedFunc);
    }

    method ProcessSyn(p: Packet)
      requires Holds()
      modifies this`ports, this`sig, this`minor, this`funcs, this`sent, this`packets
      ensures Holds() && View() == OnSyn(server, old(View()), p)
    {
      hide Holds;
      hide Learned;
      Learn(p);
      Send(Packet(SYN, ACK_SIZED, ports.srcType, ports.srcPort, ports.dstType, ports.dstPort,
                  0, 0, [], sig, minor, funcs, []));
    }

    /** What an accepted CONNECT changes. */
    method Admit(login: Login)
      requires Holds()
      modifies this`user, this`state, this`listed, this`loops
      ensures Holds() && View() == Admitted(old(View()), login)
    {
      hide Holds;
      hide Named;
      user := Named(user, login);
      state := Connected;
      listed := listed + 1;
      loops := loops + 1;
    }

    method ProcessConnect(p: Packet)
      requires Holds()
      modifies this`sent, this`packets, this`user, this`state, this`listed, this`loops
      ensures Holds() && View() == OnConnect(server, old(View()), p)
    {
      hide Holds;
      hide Admitted;
      var login := server.accept(sig, p);
      if login.None? { return; }
      Send(Packet(CONNECT, ACK_SIZED, ports.srcType, ports.srcPort, ports.dstType, ports.dstPort,
                  0, 1, [], [], minor, funcs, login.value.response));
      Admit(login.value);
    }

    method ProcessData(p: Packet)
      requires Holds() && p.kind == DATA
      modifies this
      ensures Holds() && recvBuf == old(recvBuf) && acts == old(acts)
      ensures View() == OnData(server, old(View()), p)
    {
      hide Holds;
      hide HasBit;
      hide ExtraIds;
      hide Acked;
      hide AckPacket;
      hide OnFragment;
      if HasBit(p.flags, FLAG_MULTI_ACK) {
        var pl := p.payload;
        if |pl| >= 4 {
          var count := pl[1];
          var base := Word(pl, 2);
          var extra := ReadExtra(pl, count);
          AckPackets(base, extra);
        }
        return;
      }
      if HasBit(p.flags, FLAG_ACK) {
        AckPackets(p.packetID, []);
        return;
      }
      Reassemble(p);
    }

    /** Acknowledges a fragment and adds it to the payload it belongs to. */
    method Reassemble(p: Packet)
      requires Holds()
      modifies this
      ensures Holds() && recvBuf == old(recvBuf) && acts == old(acts) && View() == OnFragment(server, old(View()), p)
    {
      hide HasBit;
      hide AckPacket;
      hide Frames;
      hide Encoded;
      hide RequestsIn;
      hide SayAll;
      hide AnswersTo;
      if HasBit(p.flags, FLAG_NEED_ACK) { SendAck(p); }
      fragBuf := fragBuf + p.payload;
      if p.fragmentID == 0 {
        var full := fragBuf;
        fragBuf := [];
        DispatchRmc(full);
      }
    }

    static method ReadExtra(pl: bytes, count: nat) returns (extra: seq<u16>)
      ensures extra == ExtraIds(pl, 4, count)
    {
      extra := [];
      var i, off := 0, 4;
      while i < count && off + 2 <= |pl|
        invariant 0 <= i <= count && off == 4 + 2 * i
        invariant extra + ExtraIds(pl, off, count - i) == ExtraIds(pl, 4, count)
      {
        assert extra + ExtraIds(pl, off, count - i)
            == (extra + [Word(pl, off)]) + ExtraIds(pl, off + 2, count - i - 1);
        extra := extra + [Word(pl, off)];
        i, off := i + 1, off + 2;
      }
      assert extra + [] == extra;
    }

    /** Hands a payload on: a request goes to its handler, whose messages are sent, or is refused. */
    method DispatchRmc(payload: bytes)
      requires Holds()
      modifies this
      ensures Holds() && recvBuf == old(recvBuf) && acts == old(acts)
      ensures View() == SayAll(old(View()).(inbound := Inbound(old(fragBuf), old(delivered) + [payload])), Size(server),
                               AnswersTo(server, |old(delivered)| + 1, payload))
    {
      hide Frames;
      hide Encoded;
      hide Rmc.Parse;
      hide SayAll;
      hide RequestsIn;
      RequestsNext(delivered, payload);
      SayNone(old(View()).(inbound := Inbound(old(fragBuf), old(delivered) + [payload])), Size(server));
      delivered := delivered + [payload];
      var req := Rmc.ParseMessage(settings, payload);
      if req == None || !req.value.Request? {
        return;
      }
      requests := requests + [req.value];
      if req.value.protocol !in server.registered && !server.fallback {
        Answer([Rmc.Failure(req.value.protocol, req.value.callID, NOT_IMPLEMENTED)]);
        return;
      }
      Answer(server.respond(|delivered|, req.value));
    }

    method Answer(ms: seq<Rmc.Message>)
      requires Holds()
      modifies this`sent, this`pending, this`outReliable, this`tasks, this`packets, this`kept, this`said, this`ended
      ensures Holds() && View() == SayAll(old(View()), Size(server), ms)
    {
      hide Holds;
      hide Say;
      ghost var start := View();
      for i := 0 to |ms|
        invariant Holds() && SayAll(View(), Size(server), ms[i..]) == SayAll(start, Size(server), ms)
      {
        assert ms[i..][1..] == ms[i + 1..];
        SendRmc(ms[i]);
      }
      assert ms[|ms|..] == [];
    }

    method SendOneFragment(f: Fragment)
      requires Holds()
      modifies this`sent, this`pending, this`outReliable, this`packets, this`kept
      ensures Holds() && View() == SendFragment(old(View()), f)
    {
      var id := outReliable;
      var pkt := Packet(DATA, DATA_FLAGS, ports.srcType, ports.srcPort, ports.dstType, ports.dstPort,
                        f.id, id, [], [], 0, 0, f.chunk);
      outReliable := (outReliable + 1) % 0x1_0000;
      FramesNext(sent, packets, pkt);
      EncodedNext(pending, kept, id, pkt);
      hide Frames;
      hide Encoded;
      hide RequestsIn;
      var encoded := EncodePacket(pkt);
      sent := sent + [encoded];
      packets := packets + [pkt];
      pending := pending[id := encoded];
      kept := kept[id := pkt];
    }

    /** Sends a payload of one fragment at once and starts a goroutine for a longer one. */
    method SendData(data: bytes, ghost m: Rmc.Message)
      requires Holds() && data == Rmc.Encode(m)
      modifies this`sent, this`pending, this`outReliable, this`tasks, this`packets, this`kept, this`said, this`ended
      ensures Holds() && View() == Say(old(View()), Size(server), m)
    {
      hide Holds;
      hide SendFragment;
      hide Rmc.Encode;
      said := said + [m];
      var size := EffectiveSize(server.fragmentSize);
      if |data| <= size {
        SendOneFragment(Fragment(data, 0));
        ended := ended + [data];
        return;
      }
      tasks := tasks + [Task(data, data, 1)];
    }

    /** One turn of the loop of a sending goroutine, up to its pause or its end. */
    method SendTurn(k: nat)
      requires Holds() && k < |tasks|
      modifies this`sent, this`pending, this`outReliable, this`tasks, this`packets, this`kept, this`ended
      ensures Holds() && View() == Turn(old(View()), Size(server), k)
    {
      hide Frames;
      hide Encoded;
      hide RequestsIn;
      hide SendFragment;
      var size := EffectiveSize(server.fragmentSize);
      var data, rest, id := tasks[k].data, tasks[k].rest, tasks[k].id;
      if state == Closed {
        tasks := tasks[..k] + tasks[k + 1..];
        return;
      }
      var chunk := rest;
      if |chunk| > size { chunk := rest[..size]; } else { id := 0; }
      if id == 0 { tasks := tasks[..k] + tasks[k + 1..]; }
      else { tasks := tasks[k := Task(data, rest[size..], (id as int + 1) % 0x100)]; }
      SendOneFragment(Fragment(chunk, id));
      if id == 0 { ended := ended + [data]; }
    }

    method TakeTurn(k: nat)
      requires Valid() && k < |tasks|
      modifies this`sent, this`pending, this`outReliable, this`tasks, this`packets, this`kept, this`ended, this`acts
      ensures Valid() && acts == old(acts) + [Transport.TakeTurn(k)] && View() == Turn(old(View()), Size(server), k)
    {
      hide Holds;
      hide Transport.Run;
      hide Turn;
      SendTurn(k);
      Log(Transport.TakeTurn(k), old(View()));
    }

    /** A message pushed from outside the receive path. */
    method Push(m: Rmc.Message)
      requires Valid()
      modifies this`sent, this`pending, this`outReliable, this`tasks, this`packets, this`kept, this`said, this`ended
      modifies this`acts
      ensures Valid() && acts == old(acts) + [Transport.Speak(m)] && View() == Say(old(View()), Size(server), m)
    {
      hide Holds;
      hide Transport.Run;
      hide Say;
      SendRmc(m);
      Log(Transport.Speak(m), old(View()));
    }

    /** A message sent while no goroutine is at work, its own running to its end: exactly the fragments of its
        split go out, and a receiver that is not in the middle of a payload is given all of it if and only if it
        is no longer than 256 fragments. */
    method SendAlone(m: Rmc.Message)
      requires Valid() && tasks == [] && state != Closed
      modifies this`sent, this`pending, this`outReliable, this`tasks, this`packets, this`kept, this`said, this`ended
      modifies this`acts
      ensures Valid() && tasks == [] && state != Closed
      ensures FragmentsIn(packets) == FragmentsIn(old(packets)) + Split1(Rmc.Encode(m), Size(server))
      ensures var before, after := Delivery.Arrived(old(View())), Delivery.Arrived(View());
              before.fragBuf == [] ==>
                (after.delivered == before.delivered + [Rmc.Encode(m)] <==> |Rmc.Encode(m)| <= 0x100 * Size(server))
    {
      ghost var start, size := View(), Size(server);
      hide Valid;
      hide Turn;
      hide Rmc.Encode;
      hide FragmentsIn;
      hide Split;
      Push(m);
      Delivery.LoneSplit(start, size, m);
      if Delivery.Arrived(start).fragBuf == [] { Delivery.LoneMessage(start, size, m); }
      hide Say;
      hide Delivery.Turns;
      ghost var goal := Delivery.Turns(View(), size);
      while tasks != []
        invariant Valid() && |tasks| <= 1 && state != Closed && Delivery.Turns(View(), size) == goal
        decreases if tasks == [] then 0 else 1 + |tasks[0].rest|
      {
        Delivery.TurnsNext(View(), size);
        Delivery.LoneTurn(View(), size);
        TakeTurn(0);
      }
      Delivery.TurnsNext(View(), size);
    }

    method SendRmc(m: Rmc.Message)
      requires Holds()
      modifies this`sent, this`pending, this`outReliable, this`tasks, this`packets, this`kept, this`said, this`ended
      ensures Holds() && View() == Say(old(View()), Size(server), m)
    {
      hide Holds;
      hide Say;
      var data := Rmc.EncodeMessage(settings, m);
      SendData(data, m);
    }

    /** The two deletion loops on the pool. */
    method DropAcked(base: u16, extra: seq<u16>)
      modifies this`pending
      ensures pending == Acked(old(pending), Ack(base, extra))
    {
      var left := pending.Keys;
      while left != {}
        invariant forall id :: id in pending <==> id in old(pending) && (id in left || id > base)
        invariant forall id :: id in pending ==> pending[id] == old(pending)[id]
        decreases left
      {
        var id :| id in left;
        if id <= base { pending := pending - {id}; }
        left := left - {id};
      }
      for i := 0 to |extra|
        invariant forall id :: id in pending <==> id in old(pending) && id > base && id !in extra[..i]
        invariant forall id :: id in pending ==> pending[id] == old(pending)[id]
      {
        assert extra[..i + 1] == extra[..i] + [extra[i]];
        pending := pending - {extra[i]};
      }
      assert extra[..|extra|] == extra;
    }

    method AckPackets(base: u16, extra: seq<u16>)
      requires Holds()
      modifies this`pending, this`kept
      ensures Holds() && View() == old(View()).(pending := Acked(old(kept), Ack(base, extra)))
    {
      hide Frames;
      hide Encoded;
      hide RequestsIn;
      hide Acked;
      EncodedAcked(pending, kept, Ack(base, extra));
      DropAcked(base, extra);
      kept := Acked(kept, Ack(base, extra));
    }

    lemma Pool()
      requires Holds()
      ensures pending.Keys == kept.Keys && forall id :: id in kept ==> pending[id] == PrudpLite.Encode(kept[id])
    {
    }

    /** The pending frames in the order in which a map loop visits them. */
    method CopyPending() returns (copies: seq<bytes>, ghost order: seq<u16>)
      requires Holds()
      ensures ListsIds(order, kept) && Frames(copies, Picked(kept, order))
    {
      copies, order := [], [];
      Pool();
      hide Holds;
      hide PrudpLite.Encode;
      var left := pending.Keys;
      while left != {}
        invariant left <= pending.Keys
        invariant forall id :: id in order <==> id in kept && id !in left
        invariant forall i, j :: 0 <= i < j < |order| ==> order[i] != order[j]
        invariant Frames(copies, Picked(kept, order))
        decreases left
      {
        var id :| id in left;
        PickedNext(kept, order, id);
        hide Picked;
        FramesNext(copies, Picked(kept, order), kept[id]);
        copies := copies + [pending[id]];
        order := order + [id];
        left := left - {id};
      }
    }

    /** A tick of a retransmission goroutine: it ends on a closed connection, else copies the pending frames. */
    method Retransmit() returns (ghost order: seq<u16>)
      requires Valid() && loops > 0
      modifies this`loops, this`batch, this`queued, this`acts
      ensures Valid() && acts == old(acts) + [Transport.Beat(order)]
      ensures state == Closed || ListsIds(order, old(kept))
      ensures View() == Tick(old(View()), order)
    {
      hide Transport.Run;
      hide Picked;
      hide Encoded;
      hide RequestsIn;
      order := [];
      if state == Closed {
        loops := loops - 1;
      } else {
        var copies;
        copies, order := CopyPending();
        FramesAppend(batch, queued, copies, Picked(kept, order));
        hide Frames;
        batch := batch + copies;
        queued := queued + Picked(kept, order);
      }
      hide ListsIds;
      Log(Transport.Beat(order), old(View()));
    }

    /** One copied frame goes out again, whatever has been acknowledged since it was copied. */
    method ResendOne(k: nat)
      requires Valid() && k < |batch|
      modifies this`sent, this`packets, this`batch, this`queued, this`acts
      ensures Valid() && acts == old(acts) + [Transport.Repeat(k)] && k < |old(queued)|
      ensures View() == Resend(old(View()), k)
    {
      FramesLength(batch, queued);
      FramesWithout(batch, queued, k);
      hide Transport.Run;
      hide Encoded;
      hide RequestsIn;
      hide PrudpLite.Encode;
      SendFrame(batch[k], queued[k]);
      hide Frames;
      batch := batch[..k] + batch[k + 1..];
      queued := queued[..k] + queued[k + 1..];
      Log(Transport.Repeat(k), old(View()));
    }
  }

  lemma FramesLength(frames: seq<bytes>, ps: seq<Packet>)
    requires Frames(frames, ps)
    ensures |frames| == |ps|
  {
  }
}
