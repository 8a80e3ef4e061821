/** The pool of unacknowledged reliable packets over whole histories
    (sendOneFragment and ackPackets of nextendo-nex/endpoint.go).

    Taking a sequence id and recording the packet are two critical sections, so
    acknowledgements and other sends can fall between them.
 */
module RetransmitPool {
  import opened Bytes
  import opened Endpoint
  import opened Fragments
  import PrudpLite
  import Rmc
  import Transport

  datatype Event = Allocate(id: u16) | Record(id: u16, packet: PrudpLite.Packet) | Acknowledge(ack: Ack)

  /** `taken` are the ids handed to senders that have not recorded their packet yet. */
  datatype Pool = Pool(sends: nat, taken: multiset<u16>, pending: map<u16, PrudpLite.Packet>)

  function NextId(sends: nat): u16 { (1 + sends) % 0x1_0000 }

  predicate Enabled(p: Pool, e: Event) {
    match e
    case Allocate(id) => id == NextId(p.sends)
    case Record(id, _) => id in p.taken
    case Acknowledge(_) => true
  }

  function Apply(p: Pool, e: Event): Pool {
    match e
    case Allocate(id) => p.(sends := p.sends + 1, taken := p.taken + multiset{id})
    case Record(id, packet) => p.(taken := p.taken - multiset{id}, pending := p.pending[id := packet])
    case Acknowledge(a) => p.(pending := Acked(p.pending, a))
  }

  function After(h: seq<Event>): Pool {
    if h == [] then Pool(0, multiset{}, map[])
    else Apply(After(h[..|h| - 1]), h[|h| - 1])
  }

  ghost predicate History(h: seq<Event>) {
    h != [] ==> History(h[..|h| - 1]) && Enabled(After(h[..|h| - 1]), h[|h| - 1])
  }

  predicate RecordedAt(h: seq<Event>, i: nat, id: u16) {
    i < |h| && h[i].Record? && h[i].id == id
  }

  /** Some acknowledgement after position `i` covers `id`. */
  predicate CoveredAfter(h: seq<Event>, i: nat, id: u16) {
    exists j :: i < j < |h| && h[j].Acknowledge? && Covers(h[j].ack, id)
  }

  predicate RecordedAfter(h: seq<Event>, i: nat, id: u16) {
    exists j :: i < j < |h| && RecordedAt(h, j, id)
  }

  predicate Unacked(h: seq<Event>, i: nat, id: u16) {
    RecordedAt(h, i, id) && !CoveredAfter(h, i, id)
  }

  lemma SameBefore(h: seq<Event>, i: nat, id: u16)
    requires i < |h| - 1
    ensures var g := h[..|h| - 1]; var e := h[|h| - 1];
            && (RecordedAt(h, i, id) <==> RecordedAt(g, i, id))
            && (CoveredAfter(h, i, id) <==> CoveredAfter(g, i, id) || (e.Acknowledge? && Covers(e.ack, id)))
            && (RecordedAfter(h, i, id) <==> RecordedAfter(g, i, id) || RecordedAt(h, |h| - 1, id))
  {
    var g, e := h[..|h| - 1], h[|h| - 1];
    if CoveredAfter(g, i, id) {
      var j :| i < j < |g| && g[j].Acknowledge? && Covers(g[j].ack, id);
      assert h[j] == g[j];
    }
    if CoveredAfter(h, i, id) {
      var j :| i < j < |h| && h[j].Acknowledge? && Covers(h[j].ack, id);
      if j < |g| { assert g[j] == h[j]; }
    }
    if RecordedAfter(g, i, id) {
      var j :| i < j < |g| && RecordedAt(g, j, id);
      assert RecordedAt(h, j, id);
    }
    if RecordedAfter(h, i, id) {
      var j :| i < j < |h| && RecordedAt(h, j, id);
      if j < |g| { assert RecordedAt(g, j, id); }
    }
  }

  /** An id recorded and not acknowledged since is in the pool. */
  lemma {:induction false} UnackedIsPending(h: seq<Event>, i: nat, id: u16)
    requires Unacked(h, i, id)
    ensures id in After(h).pending
    ensures !RecordedAfter(h, i, id) ==> After(h).pending[id] == h[i].packet
    decreases |h|
  {
    if i < |h| - 1 {
      SameBefore(h, i, id);
      UnackedIsPending(h[..|h| - 1], i, id);
    }
  }

  /** An id in the pool was recorded and not acknowledged since; the pool holds its latest packet. */
  lemma {:induction false} PendingIsUnacked(h: seq<Event>, id: u16) returns (i: nat)
    requires id in After(h).pending
    ensures Unacked(h, i, id) && !RecordedAfter(h, i, id) && After(h).pending[id] == h[i].packet
    decreases |h|
  {
    var last := |h| - 1;
    if RecordedAt(h, last, id) {
      i := last;
    } else {
      i := PendingIsUnacked(h[..last], id);
      SameBefore(h, i, id);
    }
  }

  /** Over any history the pool is exactly the recorded ids no later acknowledgement covers. */
  lemma PoolExact(h: seq<Event>, id: u16)
    ensures id in After(h).pending <==> exists i: nat :: Unacked(h, i, id)
  {
    if id in After(h).pending {
      var i := PendingIsUnacked(h, id);
    }
    if i :| Unacked(h, i, id) {
      UnackedIsPending(h, i, id);
    }
  }

  // ---- no id is reused within 65536 sends ---------------------------------

  function Records(h: seq<Event>, id: u16): nat {
    if h == [] then 0
    else Records(h[..|h| - 1], id) + if RecordedAt(h, |h| - 1, id) then 1 else 0
  }

  /** The ids handed out by that many sends: from 1 on, and 0 by the 65536th. */
  predicate Issued(sends: nat, id: u16) { 1 <= id <= sends || (id == 0 && sends >= 0x1_0000) }

  /** Up to 65536 sends, each id issued is either taken once or recorded once, and no other id at all. */
  lemma {:induction false} IdsUsedOnce(h: seq<Event>, id: u16)
    requires History(h) && After(h).sends <= 0x1_0000
    ensures After(h).taken[id] + Records(h, id) == if Issued(After(h).sends, id) then 1 else 0
    decreases |h|
  {
    if h == [] {
    } else {
      hide Acked;
      var g, e := h[..|h| - 1], h[|h| - 1];
      IdsUsedOnce(g, id);
      match e
      case Allocate(a) =>
        FreshId(After(g).sends);
      case Record(r, _) =>
        assert r == id ==> After(g).taken[id] >= 1;
      case Acknowledge(_) =>
    }
  }

  lemma FreshId(sends: nat)
    requires sends < 0x1_0000
    ensures !Issued(sends, NextId(sends))
    ensures forall id: u16 :: Issued(sends + 1, id) <==> Issued(sends, id) || id == NextId(sends)
  {
  }

  lemma {:induction false} RecordsCount(h: seq<Event>, i: nat, j: nat, id: u16)
    requires i < j && RecordedAt(h, i, id) && RecordedAt(h, j, id)
    ensures Records(h, id) >= 2
    decreases |h|
  {
    var g := h[..|h| - 1];
    if j < |h| - 1 {
      RecordsCount(g, i, j, id);
    } else {
      RecordsPositive(g, i, id);
    }
  }

  lemma {:induction false} RecordsPositive(h: seq<Event>, i: nat, id: u16)
    requires RecordedAt(h, i, id)
    ensures Records(h, id) >= 1
    decreases |h|
  {
    if i < |h| - 1 { RecordsPositive(h[..|h| - 1], i, id); }
  }

  /** Within 65536 sends no packet displaces another: every packet recorded and not acknowledged after
      its record is in the pool under its own id, and the pool holds nothing else. */
  lemma NoPacketLost(h: seq<Event>)
    requires History(h) && After(h).sends <= 0x1_0000
    ensures forall i: nat, id: u16 :: Unacked(h, i, id) ==>
              id in After(h).pending && After(h).pending[id] == h[i].packet
    ensures forall id :: id in After(h).pending ==>
              exists i: nat :: Unacked(h, i, id) && After(h).pending[id] == h[i].packet
  {
    forall i: nat, id: u16 | Unacked(h, i, id)
      ensures id in After(h).pending && After(h).pending[id] == h[i].packet
    {
      if RecordedAfter(h, i, id) {
        var j :| i < j < |h| && RecordedAt(h, j, id);
        RecordsCount(h, i, j, id);
        IdsUsedOnce(h, id);
        assert false;
      }
      UnackedIsPending(h, i, id);
    }
    forall id | id in After(h).pending
      ensures exists i: nat :: Unacked(h, i, id) && After(h).pending[id] == h[i].packet
    {
      var i := PendingIsUnacked(h, id);
    }
  }

  /** The bound is exact: the 65536th send after a send, and no earlier one, takes its id again. */
  lemma IdReuse(sends: nat, later: nat)
    requires sends < later
    ensures NextId(sends) == NextId(later) <==> (later - sends) % 0x1_0000 == 0
  {
  }

  // ---- acknowledgements and sends of a connection are these events --------

  /** The ids of a MULTI-ACK: as many as announced, or as many as the payload still holds. */
  lemma {:induction false} ExtraIdsExact(pl: bytes, off: nat, count: nat)
    requires off <= |pl|
    ensures |ExtraIds(pl, off, count)| == Min(count, (|pl| - off) / 2)
    ensures forall k :: 0 <= k < |ExtraIds(pl, off, count)| ==>
              off + 2 * k + 1 < |pl| && ExtraIds(pl, off, count)[k] == PrudpLite.Word(pl, off + 2 * k)
    decreases count
  {
    if count != 0 && off + 2 <= |pl| {
      ExtraIdsExact(pl, off + 2, count - 1);
      var tail := ExtraIds(pl, off + 2, count - 1);
      forall k | 0 <= k < |ExtraIds(pl, off, count)|
        ensures off + 2 * k + 1 < |pl| && ExtraIds(pl, off, count)[k] == PrudpLite.Word(pl, off + 2 * k)
      {
        if k > 0 { assert tail[k - 1] == PrudpLite.Word(pl, off + 2 + 2 * (k - 1)); }
      }
    }
  }

  ghost predicate Matches(l: Link, p: Pool) {
    l.pending == p.pending && l.outReliable == NextId(p.sends)
  }

  lemma SendIsAllocateRecord(l: Link, p: Pool, f: Fragment)
    requires Matches(l, p)
    ensures var id, packet := l.outReliable, DataPacket(l, f);
            && Enabled(p, Allocate(id)) && Enabled(Apply(p, Allocate(id)), Record(id, packet))
            && Matches(SendFragment(l, f), Apply(Apply(p, Allocate(id)), Record(id, packet)))
  {
  }

  lemma AckIsAcknowledge(srv: Server, l: Link, p: Pool, q: PrudpLite.Packet)
    requires Matches(l, p) && q.kind == PrudpLite.DATA && IsAck(q)
    ensures Matches(OnPacket(srv, l, q), match AckOf(q) case None => p case Some(a) => Apply(p, Acknowledge(a)))
  {
  }

  // ---- every run of a connection is such a history ------------------------

  lemma Extended(h: seq<Event>, e: Event)
    requires History(h) && Enabled(After(h), e)
    ensures History(h + [e]) && After(h + [e]) == Apply(After(h), e)
  {
    hide Enabled;
    hide Apply;
    assert (h + [e])[..|h|] == h;
  }

  lemma SendHistory(l: Link, f: Fragment, h: seq<Event>) returns (g: seq<Event>)
    requires History(h) && Matches(l, After(h))
    ensures History(g) && Matches(SendFragment(l, f), After(g))
  {
    var id, packet := l.outReliable, DataPacket(l, f);
    SendIsAllocateRecord(l, After(h), f);
    hide Matches;
    hide Apply;
    hide Enabled;
    Extended(h, Allocate(id));
    Extended(h + [Allocate(id)], Record(id, packet));
    g := h + [Allocate(id)] + [Record(id, packet)];
  }

  lemma SayHistory(l: Link, size: nat, m: Rmc.Message, h: seq<Event>) returns (g: seq<Event>)
    requires History(h) && Matches(l, After(h))
    ensures History(g) && Matches(Say(l, size, m), After(g))
  {
    hide History;
    hide After;
    hide SendFragment;
    hide Rmc.Encode;
    g := h;
    if |Rmc.Encode(m)| <= size { g := SendHistory(l.(said := l.said + [m]), Fragment(Rmc.Encode(m), 0), h); }
  }

  lemma {:induction false} SayAllHistory(l: Link, size: nat, ms: seq<Rmc.Message>, h: seq<Event>)
    returns (g: seq<Event>)
    requires History(h) && Matches(l, After(h))
    ensures History(g) && Matches(SayAll(l, size, ms), After(g))
    decreases |ms|
  {
    hide History;
    hide After;
    hide Matches;
    hide Say;
    if ms == [] {
      g := h;
    } else {
      g := SayHistory(l, size, ms[0], h);
      g := SayAllHistory(Say(l, size, ms[0]), size, ms[1..], g);
    }
  }

  lemma TurnHistory(l: Link, size: nat, k: nat, h: seq<Event>) returns (g: seq<Event>)
    requires size > 0 && k < |l.tasks| && History(h) && Matches(l, After(h))
    ensures History(g) && Matches(Turn(l, size, k), After(g))
  {
    hide History;
    hide After;
    hide SendFragment;
    var t := l.tasks[k];
    var done := l.(tasks := Without(l.tasks, k));
    if l.state.Closed? { g := h; }
    else if |t.rest| <= size { g := SendHistory(done, Fragment(t.rest, 0), h); }
    else if t.id == 0 { g := SendHistory(done, Fragment(t.rest[..size], 0), h); }
    else {
      g := SendHistory(l.(tasks := l.tasks[k := Task(t.data, t.rest[size..], (t.id + 1) % 0x100)]),
                       Fragment(t.rest[..size], t.id), h);
    }
  }

  lemma HearHistory(srv: Server, l: Link, p: PrudpLite.Packet, h: seq<Event>) returns (g: seq<Event>)
    requires History(h) && Matches(l, After(h))
    ensures History(g) && Matches(OnPacket(srv, l, p), After(g))
  {
    hide HasBit;
    hide AnswersTo;
    hide Absorb;
    hide History;
    g := h;
    if p.kind == PrudpLite.DATA && IsAck(p) {
      hide After;
      AckIsAcknowledge(srv, l, After(h), p);
      if AckOf(p).Some? {
        Extended(h, Acknowledge(AckOf(p).value));
        g := h + [Acknowledge(AckOf(p).value)];
      }
    } else if IsFragment(p) {
      hide After;
      var l1 := AckIfNeeded(l, p).(inbound := Absorb(l.inbound, FragmentOf(p)));
      if p.fragmentID == 0 {
        g := SayAllHistory(l1, Size(srv),
                           AnswersTo(srv, |l1.inbound.delivered|, l.inbound.fragBuf + p.payload), h);
      }
    }
    hide SayAll;
  }

  lemma StepHistory(srv: Server, l: Link, a: Transport.Act, h: seq<Event>) returns (g: seq<Event>)
    requires Transport.Enabled(l, a) && History(h) && Matches(l, After(h))
    ensures History(g) && Matches(Transport.Apply(srv, l, a), After(g))
  {
    hide History;
    hide After;
    hide Say;
    hide Turn;
    hide OnPacket;
    hide ListsIds;
    hide Picked;
    hide Transport.Heard;
    g := h;
    match a
    case Speak(m) => g := SayHistory(l, Size(srv), m, h);
    case TakeTurn(k) => g := TurnHistory(l, Size(srv), k, h);
    case Hear(p) => g := HearHistory(srv, l, p, h);
    case _ =>
  }

  /** The pool of a connection after any run is that of a history of this module. */
  lemma {:induction false} RunHistory(srv: Server, acts: seq<Transport.Act>) returns (h: seq<Event>)
    requires Transport.Run(srv, acts).Some?
    ensures History(h) && Matches(Transport.Run(srv, acts).value, After(h))
    decreases |acts|
  {
    hide Transport.Apply;
    hide Transport.Enabled;
    if acts == [] {
      h := [];
    } else {
      hide History;
      hide After;
      hide Matches;
      h := RunHistory(srv, acts[..|acts| - 1]);
      h := StepHistory(srv, Transport.Run(srv, acts[..|acts| - 1]).value, acts[|acts| - 1], h);
    }
  }

  // ---- an acknowledgement before the packet is recorded -------------------

  predicate AllocatedAt(h: seq<Event>, i: nat, id: u16) {
    i < |h| && h[i] == Allocate(id)
  }

  lemma {:induction false} PrefixHistory(h: seq<Event>, k: nat)
    requires History(h) && k <= |h|
    ensures History(h[..k]) && After(h[..k]).sends <= After(h).sends
    decreases |h|
  {
    if k == |h| {
      assert h[..k] == h;
    } else {
      PrefixHistory(h[..|h| - 1], k);
      assert h[..|h| - 1][..k] == h[..k];
    }
  }

  /** Within 65536 sends an id is recorded only after it was taken. */
  lemma TakenFirst(h: seq<Event>, a: nat, r: nat, id: u16)
    requires History(h) && After(h).sends <= 0x1_0000 && AllocatedAt(h, a, id) && RecordedAt(h, r, id)
    ensures a < r
  {
    if r < a {
      var g := h[..a];
      PrefixHistory(h, a);
      PrefixHistory(h, a + 1);
      assert h[..a + 1][..a] == g && h[..a + 1][a] == Allocate(id);
      assert After(g).sends + 1 <= 0x1_0000;
      FreshId(After(g).sends);
      assert RecordedAt(g, r, id);
      RecordsPositive(g, r, id);
      IdsUsedOnce(g, id);
      assert false;
    }
  }

  /** A packet is pending exactly until it is acknowledged, if and only if its acknowledgements do not all fall
      between the taking of its id and its recording. */
  lemma PendingUntilAcked(h: seq<Event>, a: nat, r: nat, id: u16)
    requires History(h) && After(h).sends <= 0x1_0000 && AllocatedAt(h, a, id) && RecordedAt(h, r, id)
    ensures a < r
    ensures (id in After(h).pending <==> !CoveredAfter(h, a, id)) <==>
              (CoveredAfter(h[..r], a, id) ==> CoveredAfter(h, r, id))
  {
    TakenFirst(h, a, r, id);
    OnlyRecord(h, r, id);
    hide After;
    hide History;
    hide Covers;
    if CoveredAfter(h[..r], a, id) {
      var j :| a < j < r && h[..r][j].Acknowledge? && Covers(h[..r][j].ack, id);
      assert h[j] == h[..r][j];
    }
    if CoveredAfter(h, r, id) {
      var j :| r < j < |h| && h[j].Acknowledge? && Covers(h[j].ack, id);
      assert a < j;
    }
    if CoveredAfter(h, a, id) && !CoveredAfter(h, r, id) {
      var j :| a < j < |h| && h[j].Acknowledge? && Covers(h[j].ack, id);
      assert j < r && h[..r][j] == h[j];
    }
  }

  lemma OnlyRecord(h: seq<Event>, r: nat, id: u16)
    requires History(h) && After(h).sends <= 0x1_0000 && RecordedAt(h, r, id)
    ensures id in After(h).pending <==> !CoveredAfter(h, r, id)
  {
    if id in After(h).pending {
      var i := PendingIsUnacked(h, id);
      if i != r {
        RecordsCount(h, if i < r then i else r, if i < r then r else i, id);
        IdsUsedOnce(h, id);
        assert false;
      }
    }
    if !CoveredAfter(h, r, id) { UnackedIsPending(h, r, id); }
  }

  /** The shortest history in which they do: the acknowledgement of the first packet comes before its record,
      which then stays. */
  lemma RecordedLate(packet: PrudpLite.Packet)
    ensures var h := [Allocate(1), Acknowledge(Ack(1, [])), Record(1, packet)];
            && History(h) && CoveredAfter(h, 0, 1) && After(h).pending == map[1 := packet]
  {
    var h0: seq<Event>, e0, e1, e2 := [], Allocate(1), Acknowledge(Ack(1, [])), Record(1, packet);
    Extended(h0, e0);
    Extended(h0 + [e0], e1);
    Extended(h0 + [e0] + [e1], e2);
    var h := [e0, e1, e2];
    assert h0 + [e0] + [e1] + [e2] == h;
    assert h[1].Acknowledge? && Covers(h[1].ack, 1);
  }
}
