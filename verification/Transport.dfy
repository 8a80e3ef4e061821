/** The runs of a connection, and that everything it ever sends can be decoded (nextendo-nex/endpoint.go). */
module Transport {
  import opened Bytes
  import opened Fragments
  import opened PrudpLite
  import opened Endpoint
  import Rmc

  // ---- the runs of a sender -----------------------------------------------

  /** What a connection does: it is given a message to send, one of its sending goroutines takes a turn, it
      handles a packet, a retransmission goroutine copies what is pending or sends one of the copies, or the
      socket is closed. */
  datatype Act =
    | Speak(m: Rmc.Message)
    | TakeTurn(k: nat)
    | Hear(p: Packet)
    | Beat(order: seq<u16>)
    | Repeat(k: nat)
    | HangUp

  /** Packets as decoding yields them. */
  predicate Heard(p: Packet) {
    p.kind < 0x10 && p.sourceType < 0x10 && p.destType < 0x10 && p.supportedFunc < 0x100_0000
  }

  predicate Enabled(l: Link, a: Act) {
    match a
    case Speak(_) => true
    case TakeTurn(k) => k < |l.tasks|
    case Hear(p) => Heard(p)
    case Beat(order) => l.loops > 0 && (l.state.Closed? || ListsIds(order, l.pending))
    case Repeat(k) => k < |l.batch|
    case HangUp => true
  }

  function Apply(srv: Server, l: Link, a: Act): Link
    requires Enabled(l, a)
  {
    match a
    case Speak(m) => Say(l, Size(srv), m)
    case TakeTurn(k) => Turn(l, Size(srv), k)
    case Hear(p) => OnPacket(srv, l, p)
    case Beat(order) => Tick(l, order)
    case Repeat(k) => Resend(l, k)
    case HangUp => Shut(l)
  }

  function Run(srv: Server, acts: seq<Act>): Option<Link> {
    if acts == [] then Some(NewLink())
    else
      match Run(srv, acts[..|acts| - 1])
      case None => None
      case Some(l) => if Enabled(l, acts[|acts| - 1]) then Some(Apply(srv, l, acts[|acts| - 1])) else None
  }

  /** What is decoded is as `Heard` says. */
  lemma {:induction false} FuncsInRange(q: Packet, data: bytes)
    requires q.supportedFunc < 0x100_0000
    ensures DecodeOptions(q, data).Some? ==> DecodeOptions(q, data).value.supportedFunc < 0x100_0000
    decreases |data|
  {
    if data == [] || |data| < 2 || 2 + data[1] > |data| {
    } else {
      FuncsInRange(ApplyOption(q, data[0], data[2..2 + data[1]]), data[2 + data[1]..]);
    }
  }

  lemma DecodedHeard(b: bytes)
    ensures DecodeFirst(b).Whole? ==> Heard(DecodeFirst(b).packet)
  {
    if DecodeFirst(b).Whole? {
      InRange(b, DecodeFirst(b).packet);
      FuncsInRange(HeaderFields(b), b[HEADER..HEADER + b[1]]);
    }
  }

  lemma {:induction false} AllHeard(b: bytes)
    ensures forall k :: 0 <= k < |Decode(b).packets| ==> Heard(Decode(b).packets[k])
    decreases |b|
  {
    hide DecodeFirst;
    hide Heard;
    DecodedHeard(b);
    var first := DecodeFirst(b);
    if first.Whole? { AllHeard(b[first.size..]); }
  }

  // ---- everything sent can be decoded -------------------------------------

  /** Settings and handlers whose packets fit the wire form; custom handlers send control packets. */
  ghost predicate Proper(srv: Server) {
    && Size(srv) < 0x1_0000
    && (forall n :: |srv.sign(n)| < 0x80)
    && (forall sig, p :: srv.accept(sig, p).Some? ==> |srv.accept(sig, p).value.response| < 0x1_0000)
    && (forall p, k :: 0 <= k < |srv.custom(p)| ==> Normal(srv.custom(p)[k]) && !IsFragment(srv.custom(p)[k]))
  }

  lemma SizeFits(srv: Server)
    requires Proper(srv)
    ensures 0 < Size(srv) < 0x1_0000
  {
  }

  predicate AllNormal(ps: seq<Packet>) { forall k :: 0 <= k < |ps| ==> Normal(ps[k]) }

  /** A packet worth retransmitting: the last fragment of a payload, or one with bytes in it. */
  predicate Substantial(p: Packet) { Normal(p) && IsFragment(p) && (p.fragmentID == 0 || p.payload != []) }

  predicate Sound(l: Link) {
    && AllNormal(l.sent)
    && (forall id :: id in l.pending ==> Substantial(l.pending[id]))
    && (forall k :: 0 <= k < |l.batch| ==> Substantial(l.batch[k]))
    && l.ports.srcType < 0x10 && l.ports.dstType < 0x10 && l.funcs < 0x100_0000 && |l.sig| < 0x80
  }

  lemma DataPacketNormal(l: Link, f: Fragment)
    requires l.ports.srcType < 0x10 && l.ports.dstType < 0x10 && |f.chunk| < 0x1_0000
    ensures Normal(DataPacket(l, f)) && IsFragment(DataPacket(l, f)) && FragmentOf(DataPacket(l, f)) == f
  {
  }

  lemma AckPacketNormal(l: Link, p: Packet)
    requires l.ports.srcType < 0x10 && l.ports.dstType < 0x10 && Heard(p) && p.kind !in {SYN, CONNECT}
    ensures Normal(AckPacket(l, p)) && !IsFragment(AckPacket(l, p))
  {
  }

  lemma SynAckNormal(l: Link)
    requires l.ports.srcType < 0x10 && l.ports.dstType < 0x10 && l.funcs < 0x100_0000 && |l.sig| < 0x80
    ensures Normal(SynAck(l)) && !IsFragment(SynAck(l))
  {
    hide Le32;
  }

  lemma ConnectAckNormal(l: Link, response: bytes)
    requires l.ports.srcType < 0x10 && l.ports.dstType < 0x10 && l.funcs < 0x100_0000 && |response| < 0x1_0000
    ensures Normal(ConnectAck(l, response)) && !IsFragment(ConnectAck(l, response))
  {
    hide Le32;
  }

  lemma SendSound(l: Link, f: Fragment)
    requires Sound(l) && |f.chunk| < 0x1_0000 && (f.id == 0 || f.chunk != [])
    ensures Sound(SendFragment(l, f))
  {
    DataPacketNormal(l, f);
    hide Normal;
    hide IsFragment;
  }

  lemma SaySound(l: Link, size: nat, m: Rmc.Message)
    requires Sound(l) && size < 0x1_0000
    ensures Sound(Say(l, size, m))
  {
    hide SendFragment;
    hide Substantial;
    hide Normal;
    hide Rmc.Encode;
    var l1 := l.(said := l.said + [m]);
    assert Sound(l1);
    var data := Rmc.Encode(m);
    if |data| <= size { SendSound(l1, Fragment(data, 0)); }
  }

  lemma {:induction false} SayAllSound(l: Link, size: nat, ms: seq<Rmc.Message>)
    requires Sound(l) && size < 0x1_0000
    ensures Sound(SayAll(l, size, ms))
    decreases |ms|
  {
    hide Sound;
    hide Say;
    if ms == [] {
    } else {
      SaySound(l, size, ms[0]);
      SayAllSound(Say(l, size, ms[0]), size, ms[1..]);
    }
  }

  lemma TurnSound(l: Link, size: nat, k: nat)
    requires Sound(l) && 0 < size < 0x1_0000 && k < |l.tasks|
    ensures Sound(Turn(l, size, k))
  {
    hide SendFragment;
    hide Substantial;
    hide Normal;
    var t := l.tasks[k];
    var done := l.(tasks := Without(l.tasks, k));
    assert Sound(done);
    if l.state.Closed? {
    } else if |t.rest| <= size { SendSound(done, Fragment(t.rest, 0)); }
    else if t.id == 0 { SendSound(done, Fragment(t.rest[..size], 0)); }
    else {
      var more := l.(tasks := l.tasks[k := Task(t.data, t.rest[size..], (t.id + 1) % 0x100)]);
      assert Sound(more);
      SendSound(more, Fragment(t.rest[..size], t.id));
    }
  }

  lemma {:induction false} PickedSound(m: map<u16, Packet>, order: seq<u16>)
    requires (forall id :: id in order ==> id in m) && forall id :: id in m ==> Substantial(m[id])
    ensures forall k :: 0 <= k < |Picked(m, order)| ==> Substantial(Picked(m, order)[k])
    decreases |order|
  {
    hide Substantial;
    if order == [] {
    } else {
      assert order[|order| - 1] in order && forall id :: id in order[..|order| - 1] ==> id in order;
      PickedSound(m, order[..|order| - 1]);
    }
  }

  lemma TickSound(l: Link, order: seq<u16>)
    requires Sound(l) && l.loops > 0 && (l.state.Closed? || ListsIds(order, l.pending))
    ensures Sound(Tick(l, order))
  {
    if !l.state.Closed? { PickedSound(l.pending, order); }
    hide Substantial;
    hide Normal;
    hide Picked;
  }

  lemma ResendSound(l: Link, k: nat)
    requires Sound(l) && k < |l.batch|
    ensures Sound(Resend(l, k))
  {
    assert Normal(l.batch[k]);
    hide Normal;
    hide IsFragment;
    hide Substantial;
  }

  lemma AckSound(l: Link, p: Packet)
    requires Sound(l) && Heard(p) && p.kind !in {SYN, CONNECT}
    ensures Sound(AckIfNeeded(l, p))
    ensures FragmentsIn(AckIfNeeded(l, p).sent) == FragmentsIn(l.sent)
  {
    AckPacketNormal(l, p);
    hide Normal;
    hide Substantial;
    hide AckPacket;
    hide IsFragment;
    hide HasBit;
    hide Heard;
    ControlOnly(l.sent, [AckPacket(l, p)]);
    hide FragmentsIn;
  }

  lemma AckFrame(l: Link, p: Packet)
    ensures var a := AckIfNeeded(l, p);
            a.tasks == l.tasks && a.said == l.said && a.ended == l.ended && a.inbound == l.inbound
  {
  }

  /** Control packets add no fragments. */
  lemma ControlOnly(ps: seq<Packet>, more: seq<Packet>)
    requires forall k :: 0 <= k < |more| ==> !IsFragment(more[k])
    ensures FragmentsIn(ps + more) == FragmentsIn(ps)
  {
    hide IsFragment;
    FragmentsAppend(ps, more);
    NoFragments(more);
  }

  lemma {:induction false} NoFragments(ps: seq<Packet>)
    requires forall k :: 0 <= k < |ps| ==> !IsFragment(ps[k])
    ensures FragmentsIn(ps) == []
  {
    hide IsFragment;
    if ps == [] {
    } else {
      assert !IsFragment(ps[0]);
      NoFragments(ps[1..]);
    }
  }

  lemma Regroup(x: seq<Fragment>, y: seq<Fragment>, z: seq<Fragment>)
    ensures x + (y + z) == (x + y) + z
  {
  }

  lemma {:induction false} FragmentsAppend(a: seq<Packet>, b: seq<Packet>)
    ensures FragmentsIn(a + b) == FragmentsIn(a) + FragmentsIn(b)
  {
    hide IsFragment;
    hide FragmentOf;
    if a == [] {
      assert a + b == b;
    } else {
      assert (a + b)[1..] == a[1..] + b && (a + b)[0] == a[0];
      FragmentsAppend(a[1..], b);
      Regroup(if IsFragment(a[0]) then [FragmentOf(a[0])] else [], FragmentsIn(a[1..]), FragmentsIn(b));
    }
  }

  lemma SynSound(srv: Server, l: Link, p: Packet)
    requires Proper(srv) && Sound(l) && Heard(p)
    ensures var l' := OnSyn(srv, l, p);
            && Sound(l') && l'.tasks == l.tasks && l'.said == l.said && l'.ended == l.ended
            && FragmentsIn(l'.sent) == FragmentsIn(l.sent)
  {
    hide Normal;
    hide Substantial;
    hide SynAck;
    hide IsFragment;
    var l1 := Learned(srv, l, p);
    hide Shared;
    SynAckNormal(l1);
    ControlOnly(l.sent, [SynAck(l1)]);
  }

  lemma ConnectSound(srv: Server, l: Link, p: Packet)
    requires Proper(srv) && Sound(l)
    ensures var l' := OnConnect(srv, l, p);
            && Sound(l') && l'.tasks == l.tasks && l'.said == l.said && l'.ended == l.ended
            && FragmentsIn(l'.sent) == FragmentsIn(l.sent)
  {
    hide Normal;
    hide Substantial;
    hide ConnectAck;
    hide IsFragment;
    if srv.accept(l.sig, p).Some? {
      var response := srv.accept(l.sig, p).value.response;
      ConnectAckNormal(l, response);
      ControlOnly(l.sent, [ConnectAck(l, response)]);
    }
  }

  lemma CustomSound(srv: Server, l: Link, p: Packet)
    requires Proper(srv) && Sound(l)
    ensures Sound(l.(sent := l.sent + srv.custom(p))) && FragmentsIn(l.sent + srv.custom(p)) == FragmentsIn(l.sent)
  {
    hide Normal;
    hide Substantial;
    hide IsFragment;
    ControlOnly(l.sent, srv.custom(p));
  }

  /** A packet that completes no payload leaves messages and fragments alone, whatever it is answered with. */
  lemma ControlStep(srv: Server, l: Link, p: Packet)
    requires Proper(srv) && Sound(l) && Heard(p) && !IsFragment(p)
    ensures var l' := OnPacket(srv, l, p);
            && Sound(l') && l'.tasks == l.tasks && l'.said == l.said && l'.ended == l.ended
            && FragmentsIn(l'.sent) == FragmentsIn(l.sent)
  {
    hide OnSyn;
    hide OnConnect;
    hide FragmentsIn;
    hide HasBit;
    hide Normal;
    hide Substantial;
    if p.kind == SYN { SynSound(srv, l, p); }
    else if p.kind == CONNECT { ConnectSound(srv, l, p); }
    else if p.kind == PING || p.kind == DISCONNECT { AckSound(l, p); AckFrame(l, p); }
    else if p.kind != DATA { CustomSound(srv, l, p); }
    hide AckIfNeeded;
    hide Proper;
  }

  lemma FragmentSound(srv: Server, l: Link, p: Packet)
    requires Proper(srv) && Sound(l) && Heard(p) && IsFragment(p)
    ensures Sound(OnPacket(srv, l, p))
  {
    SizeFits(srv);
    hide Proper;
    hide HasBit;
    hide AnswersTo;
    hide Absorb;
    hide Normal;
    hide Substantial;
    AckSound(l, p);
    var a := AckIfNeeded(l, p);
    hide AckIfNeeded;
    var l1 := a.(inbound := Absorb(l.inbound, FragmentOf(p)));
    assert Sound(l1);
    hide Sound;
    if p.fragmentID == 0 {
      SayAllSound(l1, Size(srv), AnswersTo(srv, |l1.inbound.delivered|, l.inbound.fragBuf + p.payload));
    }
    hide SayAll;
  }

  lemma SoundStep(srv: Server, l: Link, a: Act)
    requires Proper(srv) && Sound(l) && Enabled(l, a)
    ensures Sound(Apply(srv, l, a))
  {
    SizeFits(srv);
    hide Proper;
    hide Sound;
    hide OnPacket;
    hide IsFragment;
    hide Say;
    hide Turn;
    hide Tick;
    hide Resend;
    match a
    case Speak(m) => SaySound(l, Size(srv), m);
    case TakeTurn(k) => TurnSound(l, Size(srv), k);
    case Hear(p) => if IsFragment(p) { FragmentSound(srv, l, p); } else { ControlStep(srv, l, p); }
    case Beat(order) => TickSound(l, order);
    case Repeat(k) => ResendSound(l, k);
    case HangUp => ShutSound(l);
  }

  lemma ShutSound(l: Link)
    requires Sound(l)
    ensures Sound(Shut(l))
  {
    hide Normal;
    hide Substantial;
  }

  lemma {:induction false} AlwaysSound(srv: Server, acts: seq<Act>)
    requires Proper(srv) && Run(srv, acts).Some?
    ensures Sound(Run(srv, acts).value)
    decreases |acts|
  {
    hide Apply;
    hide Enabled;
    hide Proper;
    if acts == [] {
    } else {
      hide Sound;
      AlwaysSound(srv, acts[..|acts| - 1]);
      SoundStep(srv, Run(srv, acts[..|acts| - 1]).value, acts[|acts| - 1]);
    }
  }

  lemma {:induction false} RunsSoFar(srv: Server, acts: seq<Act>, k: nat)
    requires Run(srv, acts).Some? && k <= |acts|
    ensures Run(srv, acts[..k]).Some?
    decreases |acts|
  {
    hide Apply;
    hide Enabled;
    if k == |acts| {
      assert acts[..k] == acts;
    } else {
      var before := acts[..|acts| - 1];
      RunsSoFar(srv, before, k);
      assert before[..k] == acts[..k];
    }
  }

  lemma RunStep(srv: Server, acts: seq<Act>, k: nat)
    requires Proper(srv) && Run(srv, acts).Some? && k < |acts|
    ensures Run(srv, acts[..k]).Some? && Run(srv, acts[..k + 1]).Some?
    ensures Sound(Run(srv, acts[..k]).value) && Enabled(Run(srv, acts[..k]).value, acts[k])
    ensures Run(srv, acts[..k + 1]).value == Apply(srv, Run(srv, acts[..k]).value, acts[k])
  {
    hide Apply;
    hide Enabled;
    hide Proper;
    hide Sound;
    RunsSoFar(srv, acts, k);
    RunsSoFar(srv, acts, k + 1);
    AlwaysSound(srv, acts[..k]);
    assert acts[..k + 1][..k] == acts[..k] && acts[..k + 1][k] == acts[k];
  }

  // ---- what the endpoint's list holds -------------------------------------

  /** A packet that opens a connection that is open already. */
  predicate Reopens(srv: Server, l: Link, a: Act) {
    && l.state.Connected? && a.Hear? && a.p.kind == CONNECT && !HasBit(a.p.flags, FLAG_ACK)
    && srv.accept(l.sig, a.p).Some?
  }

  function Reopened(srv: Server, acts: seq<Act>): nat {
    if acts == [] then 0
    else
      var init := acts[..|acts| - 1];
      var l := Run(srv, init);
      Reopened(srv, init) + if l.Some? && Reopens(srv, l.value, acts[|acts| - 1]) then 1 else 0
  }

  /** Under how many ids the connection is listed, when it has been opened `n` times while open. */
  predicate Listed(l: Link, n: nat) {
    l.listed == n + (if l.state.Connected? then 1 else 0) && (l.state.Connecting? ==> n == 0)
  }

  lemma HearListed(srv: Server, l: Link, p: Packet, n: nat)
    requires Listed(l, n)
    ensures Listed(OnPacket(srv, l, p), n + if Reopens(srv, l, Hear(p)) then 1 else 0)
  {
    hide HasBit;
    hide AnswersTo;
    hide Absorb;
    if IsFragment(p) && p.fragmentID == 0 {
      var l1 := AckIfNeeded(l, p).(inbound := Absorb(l.inbound, FragmentOf(p)));
      SayAllKeepsInbound(l1, Size(srv), AnswersTo(srv, |l1.inbound.delivered|, l.inbound.fragBuf + p.payload));
    }
    hide SayAll;
  }

  lemma ListedStep(srv: Server, l: Link, a: Act, n: nat)
    requires Enabled(l, a) && Listed(l, n)
    ensures Listed(Apply(srv, l, a), n + if Reopens(srv, l, a) then 1 else 0)
  {
    hide OnPacket;
    hide Say;
    hide ListsIds;
    match a
    case Speak(m) => SayKeepsInbound(l, Size(srv), m);
    case TakeTurn(k) =>
    case Hear(p) => HearListed(srv, l, p, n);
    case Beat(order) => hide Picked;
    case Repeat(k) =>
    case HangUp =>
  }

  /** Over any run a closed connection is off the endpoint's list if and only if it was never opened a second
      time while it was open; each such opening leaves an id behind. */
  lemma {:induction false} ListedExactly(srv: Server, acts: seq<Act>)
    requires Run(srv, acts).Some?
    ensures Listed(Run(srv, acts).value, Reopened(srv, acts))
    decreases |acts|
  {
    hide Apply;
    hide Enabled;
    hide Reopens;
    if acts == [] {
    } else {
      hide Listed;
      var init := acts[..|acts| - 1];
      ListedExactly(srv, init);
      ListedStep(srv, Run(srv, init).value, acts[|acts| - 1], Reopened(srv, init));
    }
  }

  /** A client that is accepted twice before the socket is closed stays listed. */
  lemma ListedAfterClose(srv: Server, p: Packet)
    requires Heard(p) && p.kind == CONNECT && !HasBit(p.flags, FLAG_ACK) && srv.accept([], p).Some?
    ensures var l := Run(srv, [Hear(p), Hear(p), HangUp]);
            l.Some? && l.value.state.Closed? && l.value.listed == 1
  {
    hide HasBit;
    hide ConnectAck;
    var a, b, c := [Hear(p)], [Hear(p), Hear(p)], [Hear(p), Hear(p), HangUp];
    assert a[..0] == [] && b[..1] == a && c[..2] == b;
    assert Run(srv, a) == Some(OnConnect(srv, NewLink(), p));
    assert Run(srv, b) == Some(OnConnect(srv, Run(srv, a).value, p));
  }
}
