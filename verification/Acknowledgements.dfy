/** What a received packet is answered with, field by field, and that acknowledgements do their work: a fragment
    heard is a fragment no longer pending at its sender (nextendo-nex/endpoint.go). */
module Acknowledgements {
  import opened Bytes
  import opened Fragments
  import opened PrudpLite
  import opened Endpoint
  import opened Transport
  import Rmc

  // ---- what is sent in answer ---------------------------------------------

  predicate PlainData(p: Packet) { p.kind == 2 && !HasBit(p.flags, 0x001) && !HasBit(p.flags, 0x200) }

  /** `q` goes back to where the connection's packets come from. */
  predicate GoesBack(l: Link, q: Packet) {
    && q.sourceType == l.ports.srcType && q.sourcePort == l.ports.srcPort
    && q.destType == l.ports.dstType && q.destPort == l.ports.dstPort
  }

  /** A reliable fragment to be acknowledged. */
  predicate IsReliable(l: Link, q: Packet) { PlainData(q) && q.flags == 0x006 && GoesBack(l, q) }

  /** A connection that has sent more, nothing but reliable fragments. */
  predicate SentData(l: Link, l': Link) {
    && l'.ports == l.ports && l.sent <= l'.sent
    && forall k :: |l.sent| <= k < |l'.sent| ==> IsReliable(l, l'.sent[k])
  }

  /** A fragment goes out under the next packet id and is kept under it; the ids wrap at 65536. */
  lemma FragmentSent(l: Link, f: Fragment)
    ensures var l' := SendFragment(l, f);
            && |l'.sent| == |l.sent| + 1 && l'.sent[..|l.sent|] == l.sent
            && var q := l'.sent[|l.sent|];
               && IsReliable(l, q) && q.packetID == l.outReliable && q.fragmentID == f.id && q.payload == f.chunk
               && l'.pending == l.pending[l.outReliable := q]
               && l'.outReliable == (if l.outReliable == 0xFFFF then 0 else l.outReliable + 1)
  {
  }

  lemma SaySendsData(l: Link, size: nat, m: Rmc.Message)
    ensures SentData(l, Say(l, size, m))
  {
    hide Rmc.Encode;
    var l1 := l.(said := l.said + [m]);
    FragmentSent(l1, Fragment(Rmc.Encode(m), 0));
    assert Say(l, size, m).ports == l.ports;
    hide SendFragment;
  }

  lemma {:induction false} SayAllSendsData(l: Link, size: nat, ms: seq<Rmc.Message>)
    ensures SentData(l, SayAll(l, size, ms))
    decreases |ms|
  {
    hide Say;
    hide PlainData;
    if ms == [] {
    } else {
      SaySendsData(l, size, ms[0]);
      SayAllSendsData(Say(l, size, ms[0]), size, ms[1..]);
    }
  }

  /** The acknowledgement of a packet: of its kind, under its packet and fragment id, with nothing in it. */
  predicate IsAckOf(q: Packet, p: Packet) {
    && q.kind == p.kind && q.flags == 0x001 && q.packetID == p.packetID && q.fragmentID == p.fragmentID
    && q.payload == [] && q.signature == [] && q.connectionSig == [] && q.minorVersion == 0 && q.supportedFunc == 0
  }

  /** A DATA, DISCONNECT or PING packet that is no acknowledgement itself. */
  predicate Acknowledgeable(p: Packet) {
    p.kind in {2, 3, 4} && !HasBit(p.flags, 0x001) && (p.kind == 2 ==> !HasBit(p.flags, 0x200))
  }

  /** Such a packet is acknowledged before anything else is sent if and only if it asks for it; what is sent
      besides are fragments, and only for DATA. */
  lemma AcknowledgedExactly(srv: Server, l: Link, p: Packet)
    requires Acknowledgeable(p)
    ensures var l' := OnPacket(srv, l, p);
            if HasBit(p.flags, 0x004) then
              && |l.sent| < |l'.sent| && l'.sent[..|l.sent|] == l.sent
              && IsAckOf(l'.sent[|l.sent|], p) && GoesBack(l, l'.sent[|l.sent|])
              && (forall k :: |l.sent| < k < |l'.sent| ==> IsReliable(l, l'.sent[k]))
              && (p.kind != 2 ==> |l'.sent| == |l.sent| + 1)
            else SentData(l, l') && (p.kind != 2 ==> l'.sent == l.sent)
  {
    hide HasBit;
    hide AnswersTo;
    hide Absorb;
    if p.kind == DATA {
      var l1 := AckIfNeeded(l, p).(inbound := Absorb(l.inbound, FragmentOf(p)));
      SayAllSendsData(l1, Size(srv), AnswersTo(srv, |l1.inbound.delivered|, l.inbound.fragBuf + p.payload));
      hide PlainData;
    }
    hide SayAll;
  }

  /** Acknowledgements are not answered. */
  lemma AckUnanswered(srv: Server, l: Link, p: Packet)
    requires p.kind in {0, 1, 2, 3, 4} && (HasBit(p.flags, 0x001) || (p.kind == 2 && HasBit(p.flags, 0x200)))
    ensures OnPacket(srv, l, p).sent == l.sent
  {
    hide HasBit;
    hide Acked;
  }

  /** A SYN is answered, to where it came from, with the connection's signature, the smaller minor version and
      the functions both sides have; whatever is sent from then on goes there. */
  lemma SynAnswered(srv: Server, l: Link, p: Packet)
    requires p.kind == 0 && !HasBit(p.flags, 0x001)
    ensures var l' := OnPacket(srv, l, p);
            && l'.ports == Ports(p.destType, p.destPort, p.sourceType, p.sourcePort)
            && |l'.sent| == |l.sent| + 1 && l'.sent[..|l.sent|] == l.sent
            && var q := l'.sent[|l.sent|];
               && q.kind == 0 && q.flags == 0x009 && q.packetID == 0 && q.fragmentID == 0 && GoesBack(l', q)
               && q.connectionSig == l'.sig == srv.sign(|l.sent|) && q.payload == []
               && (0 <= srv.minorVersion ==> q.minorVersion <= srv.minorVersion && q.minorVersion <= p.minorVersion
                                             && q.minorVersion in {srv.minorVersion, p.minorVersion as int})
               && (forall k: nat :: HasBit(q.supportedFunc, Weight(k)) <==>
                     HasBit(srv.functions, Weight(k)) && HasBit(p.supportedFunc, Weight(k)))
  {
    forall k: nat
      ensures HasBit(Shared(srv.functions, p.supportedFunc), Weight(k)) <==>
                HasBit(srv.functions, Weight(k)) && HasBit(p.supportedFunc, Weight(k))
    {
      SharedExactly(srv.functions, p.supportedFunc, k);
    }
    hide HasBit;
    hide Shared;
  }

  /** The weight of the k-th bit. */
  function Weight(k: nat): (w: nat)
    ensures w > 0
  {
    if k == 0 then 1 else 2 * Weight(k - 1)
  }

  lemma BitAbove(v: nat, k: nat)
    ensures HasBit(v, Weight(k + 1)) <==> HasBit(v / 2, Weight(k))
  {
    Halved(v, Weight(k));
  }

  lemma Halved(v: nat, w: nat)
    requires w > 0
    ensures v / (2 * w) == v / 2 / w
  {
    var q, r := v / 2 / w, v / 2 % w;
    assert v / 2 == q * w + r;
    assert v == (2 * w) * q + (2 * r + v % 2);
    DivUnique(v, 2 * w, q, 2 * r + v % 2);
  }

  lemma DivUnique(v: nat, d: nat, q: nat, r: nat)
    requires d > 0 && v == d * q + r && r < d
    ensures v / d == q
  {
    var k := v / d;
    assert d * k <= v < d * (k + 1);
    Smallest(d, k, q);
  }

  /** Two multiples of `d` less than `d` apart are the same. */
  lemma Smallest(d: nat, k: nat, q: nat)
    requires d * k < d * (q + 1) && d * q < d * (k + 1)
    ensures k == q
  {
  }

  lemma SharedHalves(a: nat, b: nat)
    ensures Shared(a, b) / 2 == Shared(a / 2, b / 2)
    ensures Shared(a, b) % 2 == 1 <==> a % 2 == 1 && b % 2 == 1
  {
    var x, y := a % 2, b % 2;
    BitProduct(x, y);
    if a == 0 || b == 0 {
      assert a / 2 == 0 || b / 2 == 0;
    } else {
      var bit := x * y;
      var n := Shared(a / 2, b / 2);
      assert Shared(a, b) == 2 * n + bit;
      hide Shared;
      Parity(n, bit);
    }
  }

  lemma BitProduct(x: nat, y: nat)
    requires x < 2 && y < 2
    ensures x * y < 2 && (x * y == 1 <==> x == 1 && y == 1)
  {
    if x == 0 {
      assert 0 * y == 0;
    } else {
      assert 1 * y == y;
    }
  }

  lemma Parity(n: nat, bit: nat)
    requires bit < 2
    ensures (2 * n + bit) / 2 == n && (2 * n + bit) % 2 == bit
  {
  }

  lemma LowBit(v: nat)
    ensures HasBit(v, Weight(0)) <==> v % 2 == 1
  {
  }

  /** The bits two numbers share are those both have. */
  lemma {:induction false} SharedExactly(a: nat, b: nat, k: nat)
    ensures HasBit(Shared(a, b), Weight(k)) <==> HasBit(a, Weight(k)) && HasBit(b, Weight(k))
    decreases k
  {
    hide HasBit;
    hide Weight;
    SharedHalves(a, b);
    if k == 0 {
      hide Shared;
      LowBit(a);
      LowBit(b);
      LowBit(Shared(a, b));
    } else {
      hide Shared;
      BitAbove(a, k - 1);
      BitAbove(b, k - 1);
      BitAbove(Shared(a, b), k - 1);
      SharedExactly(a / 2, b / 2, k - 1);
    }
  }

  /** A CONNECT is answered if and only if its signature and ticket are accepted. */
  lemma ConnectAnsweredExactly(srv: Server, l: Link, p: Packet)
    requires p.kind == 1 && !HasBit(p.flags, 0x001)
    ensures var l' := OnPacket(srv, l, p);
            match srv.accept(l.sig, p)
            case None => l' == l
            case Some(login) =>
              && l'.state.Connected? && l'.loops == l.loops + 1 && l'.listed == l.listed + 1
              && (login.pid.Some? ==> l'.user.pid == login.pid.value) && (login.pid.None? ==> l'.user.pid == l.user.pid)
              && (login.cid.Some? ==> l'.user.cid == login.cid.value) && (login.cid.None? ==> l'.user.cid == l.user.cid)
              && |l'.sent| == |l.sent| + 1 && l'.sent[..|l.sent|] == l.sent
              && var q := l'.sent[|l.sent|];
                 && q.kind == 1 && q.flags == 0x009 && q.packetID == 1 && q.fragmentID == 0 && GoesBack(l, q)
                 && q.payload == login.response
                 && q.minorVersion == l.minor && q.supportedFunc == l.funcs
  {
    hide HasBit;
  }

  /** A DISCONNECT that is no acknowledgement closes the connection; no other packet does. */
  lemma DisconnectCloses(srv: Server, l: Link, p: Packet)
    ensures OnPacket(srv, l, p).state.Closed? <==>
              || (p.kind == 3 && !HasBit(p.flags, 0x001))
              || (l.state.Closed? && !(p.kind == 1 && !HasBit(p.flags, 0x001) && srv.accept(l.sig, p).Some?))
  {
    hide HasBit;
    hide AnswersTo;
    hide Absorb;
    if IsFragment(p) && p.fragmentID == 0 {
      var l1 := AckIfNeeded(l, p).(inbound := Absorb(l.inbound, FragmentOf(p)));
      SayAllKeepsInbound(l1, Size(srv), AnswersTo(srv, |l1.inbound.delivered|, l.inbound.fragBuf + p.payload));
    }
    hide SayAll;
  }

  /** A new connection starts with packet id 1, and before any SYN from and to port 0. */
  lemma FirstPacket(size: nat, m: Rmc.Message)
    requires |Rmc.Encode(m)| <= size
    ensures var l := Say(NewLink(), size, m);
            && |l.sent| == 1
            && var p := l.sent[0];
               && PlainData(p) && HasBit(p.flags, 0x004) && HasBit(p.flags, 0x002)
               && p.packetID == 1 && p.fragmentID == 0 && p.payload == Rmc.Encode(m)
               && p.sourceType == 0 && p.sourcePort == 0 && p.destType == 0 && p.destPort == 0
               && l.pending == map[1 := p] && l.state.Connecting? && l.user == User(0, 0)
  {
    hide Rmc.Encode;
  }

  // ---- pending packets carry their own id ---------------------------------

  /** Every packet kept for retransmission is a fragment under its own id that asks to be acknowledged. */
  predicate Numbered(l: Link) {
    forall id :: id in l.pending ==>
      PlainData(l.pending[id]) && l.pending[id].packetID == id && HasBit(l.pending[id].flags, 0x004)
  }

  lemma SendNumbered(l: Link, f: Fragment)
    requires Numbered(l)
    ensures Numbered(SendFragment(l, f))
  {
  }

  lemma SayNumbered(l: Link, size: nat, m: Rmc.Message)
    requires Numbered(l)
    ensures Numbered(Say(l, size, m))
  {
    hide Rmc.Encode;
    hide SendFragment;
    hide PlainData;
    hide HasBit;
    if |Rmc.Encode(m)| <= size { SendNumbered(l.(said := l.said + [m]), Fragment(Rmc.Encode(m), 0)); }
  }

  lemma {:induction false} SayAllNumbered(l: Link, size: nat, ms: seq<Rmc.Message>)
    requires Numbered(l)
    ensures Numbered(SayAll(l, size, ms))
    decreases |ms|
  {
    hide Say;
    hide Numbered;
    if ms == [] {
    } else {
      SayNumbered(l, size, ms[0]);
      SayAllNumbered(Say(l, size, ms[0]), size, ms[1..]);
    }
  }

  lemma TurnNumbered(l: Link, size: nat, k: nat)
    requires Numbered(l) && size > 0 && k < |l.tasks|
    ensures Numbered(Turn(l, size, k))
  {
    hide SendFragment;
    hide PlainData;
    hide HasBit;
    var t := l.tasks[k];
    var done := l.(tasks := Without(l.tasks, k));
    if l.state.Closed? {
    } else if |t.rest| <= size { SendNumbered(done, Fragment(t.rest, 0)); }
    else if t.id == 0 { SendNumbered(done, Fragment(t.rest[..size], 0)); }
    else {
      SendNumbered(l.(tasks := l.tasks[k := Task(t.data, t.rest[size..], (t.id + 1) % 0x100)]),
                   Fragment(t.rest[..size], t.id));
    }
  }

  lemma FewerNumbered(l: Link, l': Link)
    requires Numbered(l) && l'.pending.Keys <= l.pending.Keys
    requires forall id :: id in l'.pending ==> l'.pending[id] == l.pending[id]
    ensures Numbered(l')
  {
    hide HasBit;
    hide PlainData;
  }

  lemma HearNumbered(srv: Server, l: Link, p: Packet)
    requires Numbered(l)
    ensures Numbered(OnPacket(srv, l, p))
  {
    hide HasBit;
    hide Numbered;
    hide AnswersTo;
    hide Absorb;
    if IsFragment(p) {
      var l1 := AckIfNeeded(l, p).(inbound := Absorb(l.inbound, FragmentOf(p)));
      FewerNumbered(l, l1);
      SayAllNumbered(l1, Size(srv), AnswersTo(srv, |l1.inbound.delivered|, l.inbound.fragBuf + p.payload));
    } else {
      FewerNumbered(l, OnPacket(srv, l, p));
    }
    hide SayAll;
  }

  lemma NumberedStep(srv: Server, l: Link, a: Act)
    requires Numbered(l) && Enabled(l, a)
    ensures Numbered(Apply(srv, l, a))
  {
    hide Say;
    hide Turn;
    hide OnPacket;
    hide ListsIds;
    hide Picked;
    hide PlainData;
    hide HasBit;
    match a
    case Speak(m) => SayNumbered(l, Size(srv), m);
    case TakeTurn(k) => TurnNumbered(l, Size(srv), k);
    case Hear(p) => HearNumbered(srv, l, p);
    case _ =>
  }

  lemma {:induction false} AlwaysNumbered(srv: Server, acts: seq<Act>)
    requires Run(srv, acts).Some?
    ensures Numbered(Run(srv, acts).value)
    decreases |acts|
  {
    hide Apply;
    hide Enabled;
    if acts == [] {
    } else {
      hide Numbered;
      AlwaysNumbered(srv, acts[..|acts| - 1]);
      NumberedStep(srv, Run(srv, acts[..|acts| - 1]).value, acts[|acts| - 1]);
    }
  }

  // ---- what an acknowledgement settles ------------------------------------

  /** An acknowledgement of DATA settles its packet id and every smaller one, and changes nothing else. */
  lemma AckSettles(srv: Server, l: Link, q: Packet)
    requires q.kind == 2 && HasBit(q.flags, 0x001) && !HasBit(q.flags, 0x200)
    ensures OnPacket(srv, l, q)
         == l.(pending := map id | id in l.pending && id > q.packetID :: l.pending[id])
  {
    hide HasBit;
    assert Acked(l.pending, Ack(q.packetID, [])) == map id | id in l.pending && id > q.packetID :: l.pending[id];
  }

  function WordBytes(ids: seq<u16>): (b: bytes)
    ensures |b| == 2 * |ids|
  {
    if ids == [] then [] else Le16(ids[0]) + WordBytes(ids[1..])
  }

  lemma WordBack(front: bytes, v: u16, tail: bytes)
    ensures Word(front + Le16(v) + tail, |front|) == v
  {
  }

  lemma {:induction false} IdsBack(front: bytes, ids: seq<u16>, tail: bytes)
    ensures ExtraIds(front + WordBytes(ids) + tail, |front|, |ids|) == ids
    decreases |ids|
  {
    if ids == [] {
    } else {
      hide Le16;
      var v, more := ids[0], WordBytes(ids[1..]);
      WordBack(front, v, more + tail);
      hide Word;
      Assoc(front, Le16(v), more);
      Assoc(front + Le16(v), more, tail);
      IdsBack(front + Le16(v), ids[1..], tail);
      assert [v] + ids[1..] == ids;
    }
  }

  /** The payload of an aggregate acknowledgement. */
  function Aggregate(substream: u8, base: u16, ids: seq<u16>): (b: bytes)
    requires |ids| < 0x100
    ensures |b| == 4 + 2 * |ids|
  {
    AggregateHead(substream, |ids|) + Le16(base) + WordBytes(ids)
  }

  function AggregateHead(substream: u8, count: u8): (b: bytes)
    ensures |b| == 2 && b[1] == count
  {
    [substream, count]
  }

  lemma AggregateParts(substream: u8, base: u16, ids: seq<u16>, tail: bytes)
    requires |ids| < 0x100
    ensures var head := AggregateHead(substream, |ids|) + Le16(base);
            && Aggregate(substream, base, ids) + tail == head + WordBytes(ids) + tail
            && Aggregate(substream, base, ids) + tail
            == AggregateHead(substream, |ids|) + Le16(base) + (WordBytes(ids) + tail)
  {
    hide Le16;
    hide WordBytes;
    hide AggregateHead;
    Assoc(AggregateHead(substream, |ids|) + Le16(base), WordBytes(ids), tail);
  }

  lemma SecondByte(head: bytes, rest: bytes)
    requires |head| == 2
    ensures (head + rest)[1] == head[1]
  {
  }

  lemma AggregateRead(substream: u8, base: u16, ids: seq<u16>, tail: bytes)
    requires |ids| < 0x100
    ensures var pl := Aggregate(substream, base, ids) + tail;
            pl[1] == |ids| && Word(pl, 2) == base && ExtraIds(pl, 4, |ids|) == ids
  {
    hide ExtraIds;
    hide Le16;
    hide WordBytes;
    hide Word;
    hide AggregateHead;
    hide Aggregate;
    var head := AggregateHead(substream, |ids|);
    var rest := WordBytes(ids) + tail;
    AggregateParts(substream, base, ids, tail);
    IdsBack(head + Le16(base), ids, tail);
    WordBack(head, base, rest);
    Assoc(head, Le16(base), rest);
    SecondByte(head, Le16(base) + rest);
  }

  /** An aggregate acknowledgement settles every id up to its base and each id listed, and changes nothing else. */
  lemma MultiAckSettles(srv: Server, l: Link, q: Packet, substream: u8, base: u16, ids: seq<u16>, tail: bytes)
    requires q.kind == 2 && HasBit(q.flags, 0x200) && |ids| < 0x100
    requires q.payload == Aggregate(substream, base, ids) + tail
    ensures OnPacket(srv, l, q)
         == l.(pending := map id | id in l.pending && id > base && id !in ids :: l.pending[id])
  {
    hide HasBit;
    AggregateRead(substream, base, ids, tail);
    hide Aggregate;
    hide ExtraIds;
    hide Word;
    assert AckOf(q) == Some(Ack(base, ids));
    hide AckOf;
    AckedBy(l.pending, base, ids);
    hide Acked;
  }

  lemma AckedBy(pending: map<u16, Packet>, base: u16, ids: seq<u16>)
    ensures Acked(pending, Ack(base, ids)) == map id | id in pending && id > base && id !in ids :: pending[id]
  {
  }

  // ---- there and back -----------------------------------------------------

  lemma OneDecoded(p: Packet)
    requires Normal(p)
    ensures Decode(PrudpLite.Encode(p)) == Decoded([p], [], false)
  {
    hide Normal;
    hide PrudpLite.Encode;
    assert [p][1..] == [];
    assert EncodeAll([p]) == PrudpLite.Encode(p) + [];
    assert PrudpLite.Encode(p) + [] == PrudpLite.Encode(p);
    DecodeEncoded([p], []);
    hide DecodeFirst;
    assert EncodeAll([p]) + [] == EncodeAll([p]);
    assert Decode([]) == Decoded([], [], false);
  }

  lemma FedOne(srv: Server, l: Link, p: Packet)
    requires Normal(p)
    ensures FeedChunk(srv, Fed([], l), PrudpLite.Encode(p)) == Fed([], OnPacket(srv, l, p))
  {
    hide Normal;
    hide Decode;
    hide OnPacket;
    hide PrudpLite.Encode;
    OneDecoded(p);
    assert [] + PrudpLite.Encode(p) == PrudpLite.Encode(p);
    assert [p][1..] == [];
    assert OnPackets(srv, l, [p]) == OnPackets(srv, OnPacket(srv, l, p), []);
  }

  /** The frame of a pending packet, fed to any receiver, is answered first with a frame that, fed to the sender,
      takes that packet and every one with a smaller id out of its pool, and does nothing else. */
  lemma AckComesBack(srv: Server, l: Link, id: u16, other: Server, r: Link)
    requires Sound(l) && Numbered(l) && id in l.pending && Sound(r)
    ensures var got := FeedChunk(other, Fed([], r), PrudpLite.Encode(l.pending[id]));
            && got.recvBuf == [] && |r.sent| < |got.link.sent|
            && FeedChunk(srv, Fed([], l), PrudpLite.Encode(got.link.sent[|r.sent|]))
            == Fed([], l.(pending := map x | x in l.pending && x > id :: l.pending[x]))
  {
    var p := l.pending[id];
    assert Substantial(p) && PlainData(p) && HasBit(p.flags, 0x004) && p.packetID == id;
    FedOne(other, r, p);
    AcknowledgedExactly(other, r, p);
    var q := OnPacket(other, r, p).sent[|r.sent|];
    AckNormal(r, p, q);
    FedOne(srv, l, q);
    AckSettles(srv, l, q);
    hide OnPacket;
    hide FeedChunk;
    hide Sound;
    hide Numbered;
  }

  lemma AckNormal(r: Link, p: Packet, q: Packet)
    requires Sound(r) && p.kind == 2 && IsAckOf(q, p) && GoesBack(r, q)
    ensures Normal(q) && q.kind == 2 && HasBit(q.flags, 0x001) && !HasBit(q.flags, 0x200)
  {
  }

  // ---- with all that comes back -------------------------------------------

  lemma SayCounts(l: Link, size: nat, m: Rmc.Message)
    ensures Say(l, size, m).said == l.said + [m]
  {
    hide Rmc.Encode;
  }

  lemma {:induction false} SayAllCounts(l: Link, size: nat, ms: seq<Rmc.Message>)
    ensures SayAll(l, size, ms).said == l.said + ms
    decreases |ms|
  {
    hide Say;
    if ms == [] {
    } else {
      SayCounts(l, size, ms[0]);
      SayAllCounts(Say(l, size, ms[0]), size, ms[1..]);
    }
  }

  /** What a payload is answered with when it is complete: a request by what the handler of its protocol, or the
      fallback, sends for it, or by a refusal where there is neither; anything else by nothing. */
  lemma DispatchedExactly(srv: Server, l: Link, p: Packet)
    requires PlainData(p)
    ensures var whole, l' := l.inbound.fragBuf + p.payload, OnPacket(srv, l, p);
            if p.fragmentID != 0 then l'.said == l.said && l'.inbound == Inbound(whole, l.inbound.delivered)
            else
              && l'.inbound == Inbound([], l.inbound.delivered + [whole])
              && match Rmc.Parse(whole)
                 case Some(Request(protocol, methodID, callID, body)) =>
                   if protocol in srv.registered || srv.fallback
                   then l'.said == l.said + srv.respond(|l.inbound.delivered| + 1,
                                                        Rmc.Request(protocol, methodID, callID, body))
                   else l'.said == l.said + [Rmc.Failure(protocol, callID, 0x8001_0002)]
                 case _ => l'.said == l.said
  {
    hide HasBit;
    hide Rmc.Parse;
    PacketInbound(srv, l, p);
    if p.fragmentID == 0 {
      var l1 := AckIfNeeded(l, p).(inbound := Absorb(l.inbound, FragmentOf(p)));
      var ms := AnswersTo(srv, |l1.inbound.delivered|, l.inbound.fragBuf + p.payload);
      SayAllCounts(l1, Size(srv), ms);
      hide SayAll;
    }
  }

  /** A packet that leads to no message leaves at most the packets pending before. */
  lemma QuietHear(srv: Server, l: Link, p: Packet)
    ensures l.said <= OnPacket(srv, l, p).said
    ensures OnPacket(srv, l, p).said == l.said ==> OnPacket(srv, l, p).pending.Keys <= l.pending.Keys
  {
    hide HasBit;
    hide AnswersTo;
    hide Absorb;
    if IsFragment(p) && p.fragmentID == 0 {
      var l1 := AckIfNeeded(l, p).(inbound := Absorb(l.inbound, FragmentOf(p)));
      var ms := AnswersTo(srv, |l1.inbound.delivered|, l.inbound.fragBuf + p.payload);
      SayAllCounts(l1, Size(srv), ms);
      if ms == [] {
      } else {
        hide SayAll;
      }
    }
  }

  lemma {:induction false} QuietHearAll(srv: Server, l: Link, ps: seq<Packet>)
    ensures l.said <= OnPackets(srv, l, ps).said
    ensures OnPackets(srv, l, ps).said == l.said ==> OnPackets(srv, l, ps).pending.Keys <= l.pending.Keys
    decreases |ps|
  {
    hide OnPacket;
    if ps == [] {
    } else {
      QuietHear(srv, l, ps[0]);
      QuietHearAll(srv, OnPacket(srv, l, ps[0]), ps[1..]);
    }
  }

  /** What the receiver of a pending packet answers: decodable packets, the first of them its acknowledgement. */
  lemma AnswerTo(l: Link, id: u16, other: Server, r: Link, answer: seq<Packet>)
    requires Proper(other) && Sound(l) && Numbered(l) && id in l.pending && Sound(r)
    requires OnPacket(other, r, l.pending[id]).sent == r.sent + answer
    ensures AllNormal(answer) && answer != []
    ensures var q := answer[0];
            q.kind == 2 && q.packetID == id && HasBit(q.flags, 0x001) && !HasBit(q.flags, 0x200)
  {
    var p := l.pending[id];
    assert Substantial(p) && PlainData(p) && HasBit(p.flags, 0x004) && p.packetID == id;
    NormalHeard(p);
    hide Numbered;
    FragmentSound(other, r, p);
    AcknowledgedExactly(other, r, p);
    var r' := OnPacket(other, r, p);
    assert answer[0] == r'.sent[|r.sent|];
    AckNormal(r, p, answer[0]);
    assert AllNormal(r'.sent);
    hide OnPacket;
    hide Sound;
    hide Normal;
    assert forall k :: 0 <= k < |answer| ==> answer[k] == r'.sent[|r.sent| + k];
  }

  /** Everything the receiver sends in answer, handler's messages included, cut in any chunks and fed to the
      sender, leaves the packet out of the sender's pool, unless the sender is moved to say more. */
  lemma AllComesBack(srv: Server, l: Link, id: u16, other: Server, r: Link, answer: seq<Packet>, chunks: seq<bytes>)
    requires Proper(other) && Sound(l) && Numbered(l) && id in l.pending && Sound(r)
    requires OnPacket(other, r, l.pending[id]).sent == r.sent + answer && Flatten(chunks) == EncodeAll(answer)
    ensures var back := FeedAll(srv, Fed([], l), chunks);
            back.recvBuf == [] && (back.link.said == l.said ==> id !in back.link.pending)
  {
    hide OnPacket;
    hide Sound;
    hide Numbered;
    hide Proper;
    hide FeedAll;
    hide EncodeAll;
    hide HasBit;
    hide Normal;
    AnswerTo(l, id, other, r, answer);
    var q := answer[0];
    FedAll(srv, l, answer, chunks);
    AckSettles(srv, l, q);
    var l1 := OnPacket(srv, l, q);
    assert id !in l1.pending && l1.said == l.said;
    QuietHearAll(srv, l1, answer[1..]);
    assert OnPackets(srv, l, answer) == OnPackets(srv, l1, answer[1..]);
  }

  lemma NormalHeard(p: Packet)
    requires Normal(p) && p.kind == 2
    ensures Heard(p)
  {
  }

  lemma FedAll(srv: Server, l: Link, ps: seq<Packet>, chunks: seq<bytes>)
    requires AllNormal(ps) && Flatten(chunks) == EncodeAll(ps)
    ensures FeedAll(srv, Fed([], l), chunks) == Fed([], OnPackets(srv, l, ps))
  {
    hide Normal;
    hide OnPackets;
    hide FeedAll;
    DecodeEncoded(ps, []);
    hide DecodeFirst;
    assert EncodeAll(ps) + [] == EncodeAll(ps);
    hide EncodeAll;
    assert [] + Flatten(chunks) == Flatten(chunks);
    assert Decode([]).packets == [];
    FeedAnyChunks(srv, Fed([], l), chunks);
  }

  // ---- retransmission -----------------------------------------------------

  lemma {:induction false} ListedOnce(order: seq<u16>, ids: set<u16>)
    requires (forall id :: id in order <==> id in ids) && forall i, j :: 0 <= i < j < |order| ==> order[i] != order[j]
    ensures |order| == |ids|
    decreases |order|
  {
    if order == [] {
      assert ids == {};
    } else {
      var last, init := order[|order| - 1], order[..|order| - 1];
      assert order == init + [last] && last !in init;
      ListedOnce(init, ids - {last});
    }
  }

  lemma {:induction false} PickedAt(m: map<u16, Packet>, order: seq<u16>)
    requires forall id :: id in order ==> id in m
    ensures |Picked(m, order)| == |order|
    ensures forall k :: 0 <= k < |order| ==> order[k] in m && Picked(m, order)[k] == m[order[k]]
    decreases |order|
  {
    if order == [] {
    } else {
      var init := order[..|order| - 1];
      assert order[|order| - 1] in order && forall id :: id in init ==> id in order;
      PickedAt(m, init);
      forall k | 0 <= k < |order| ensures order[k] in m && Picked(m, order)[k] == m[order[k]] {
        assert order[k] in order;
        if k < |init| { assert init[k] == order[k]; }
      }
    }
  }

  /** A tick on an open connection copies every pending packet, each once, behind what is still to be sent; on a closed
      one it ends the goroutine. */
  lemma TickCopies(l: Link, order: seq<u16>)
    requires l.loops > 0 && (l.state.Closed? || ListsIds(order, l.pending))
    ensures var l' := Tick(l, order);
            if l.state.Closed? then l' == l.(loops := l.loops - 1)
            else
              && l' == l.(batch := l'.batch) && l.batch <= l'.batch
              && |l'.batch| == |l.batch| + |l.pending|
              && (forall id :: id in l.pending ==> l.pending[id] in l'.batch[|l.batch|..])
  {
    if !l.state.Closed? {
      PickedAt(l.pending, order);
      ListedOnce(order, l.pending.Keys);
      var copies := Picked(l.pending, order);
      hide Picked;
      assert (l.batch + copies)[|l.batch|..] == copies;
      forall id | id in l.pending ensures l.pending[id] in copies {
        var k :| 0 <= k < |order| && order[k] == id;
        assert copies[k] == l.pending[id];
      }
    }
  }

  // ---- framing errors -----------------------------------------------------

  lemma {:induction false} Broken(ps: seq<Packet>, bad: bytes)
    requires AllNormal(ps) && |bad| >= 12 && bad[0] != 0x80
    ensures Decode(EncodeAll(ps) + bad).failed
    decreases |ps|
  {
    if ps == [] {
      assert EncodeAll([]) + bad == bad;
    } else {
      var p, more := ps[0], EncodeAll(ps[1..]) + bad;
      hide Normal;
      hide PrudpLite.Encode;
      FirstOfEncoded(p, more);
      hide DecodeFirst;
      Assoc(PrudpLite.Encode(p), EncodeAll(ps[1..]), bad);
      assert (PrudpLite.Encode(p) + more)[|PrudpLite.Encode(p)|..] == more;
      Broken(ps[1..], bad);
    }
  }

  /** Bytes that are no packet drop all that was read with them: the packets before them are not handled, and nothing is
      left in the buffer. */
  lemma BrokenDropped(srv: Server, l: Link, ps: seq<Packet>, bad: bytes)
    requires AllNormal(ps) && |bad| >= 12 && bad[0] != 0x80
    ensures FeedChunk(srv, Fed([], l), EncodeAll(ps) + bad) == Fed([], l)
  {
    hide Decode;
    hide OnPackets;
    Broken(ps, bad);
    assert [] + (EncodeAll(ps) + bad) == EncodeAll(ps) + bad;
  }
}
