/** What a sender's bytes tell a receiver, however they are cut: exactly which steps keep the payloads whole
    (nextendo-nex/endpoint.go). */
module Delivery {
  import opened Bytes
  import opened Fragments
  import opened PrudpLite
  import opened Endpoint
  import opened Transport
  import Rmc

  // ---- what the wire tells ------------------------------------------------

  function Encodings(ms: seq<Rmc.Message>): (es: seq<bytes>)
    ensures |es| == |ms|
  {
    if ms == [] then [] else Encodings(ms[..|ms| - 1]) + [Rmc.Encode(ms[|ms| - 1])]
  }

  function Datas(ts: seq<Task>): (ds: seq<bytes>)
    ensures |ds| == |ts| && forall k :: 0 <= k < |ts| ==> ds[k] == ts[k].data
  {
    seq(|ts|, k requires 0 <= k < |ts| => ts[k].data)
  }

  /** What a receiver has after all fragments sent so far. */
  function Arrived(l: Link): Inbound { AbsorbAll(Inbound([], []), FragmentsIn(l.sent)) }

  /** Part of the payload is on the wire. */
  predicate Begun(t: Task) { t.rest != t.data }

  /** No payload is half sent. */
  predicate Idle(l: Link) { forall k :: 0 <= k < |l.tasks| ==> !Begun(l.tasks[k]) }

  predicate IdleBut(l: Link, k: nat) { forall j :: 0 <= j < |l.tasks| && j != k ==> !Begun(l.tasks[j]) }

  /** A goroutine's payload is longer than a fragment, and the ids left suffice for the rest of it. */
  predicate Fits(t: Task, size: nat) {
    |t.data| > size && |t.rest| <= Left(t.id) * size && (!Begun(t) ==> t.id == 1)
  }

  predicate AllFit(l: Link, size: nat) { forall k :: 0 <= k < |l.tasks| ==> Fits(l.tasks[k], size) }

  /** Every message given is sent or with a goroutine, each as often as it was given. */
  predicate Conserved(l: Link) { multiset(Encodings(l.said)) == multiset(l.ended) + multiset(Datas(l.tasks)) }

  /** The partial payload at the receiver is what the goroutine of the one half sent has not left. */
  predicate Partial(l: Link) {
    && (Idle(l) <==> Arrived(l).fragBuf == [])
    && (forall k :: 0 <= k < |l.tasks| && Begun(l.tasks[k]) ==>
          Arrived(l).fragBuf + l.tasks[k].rest == l.tasks[k].data)
  }

  /** The wire tells what was said: the payloads whose sending has ended have arrived, whole and in the order
      in which it ended, and the rest can still follow. */
  predicate Told(l: Link, size: nat) {
    Arrived(l).delivered == l.ended && Conserved(l) && AllFit(l, size) && Partial(l)
  }

  lemma ArrivedNext(l: Link, f: Fragment)
    requires l.ports.srcType < 0x10 && l.ports.dstType < 0x10 && |f.chunk| < 0x1_0000
    ensures Arrived(SendFragment(l, f)) == Absorb(Arrived(l), f)
  {
    DataPacketNormal(l, f);
    ArrivedMore(l, DataPacket(l, f));
  }

  lemma ArrivedMore(l: Link, p: Packet)
    requires IsFragment(p)
    ensures Arrived(Transmit(l, p)) == Absorb(Arrived(l), FragmentOf(p))
  {
    var f := FragmentOf(p);
    hide IsFragment;
    hide Absorb;
    FragmentsAppend(l.sent, [p]);
    assert FragmentsIn([p]) == [f] by { assert [p][1..] == []; }
    AbsorbAppend(Inbound([], []), FragmentsIn(l.sent), [f]);
    AbsorbOne(Arrived(l), f);
  }

  lemma AbsorbOne(i: Inbound, f: Fragment)
    ensures AbsorbAll(i, [f]) == Absorb(i, f)
  {
    assert [f][1..] == [];
  }

  /** What `Told` looks at. */
  lemma SameTold(l: Link, l': Link, size: nat)
    requires FragmentsIn(l'.sent) == FragmentsIn(l.sent)
    requires l'.tasks == l.tasks && l'.said == l.said && l'.ended == l.ended
    ensures Told(l', size) == Told(l, size) && Idle(l') == Idle(l) && Arrived(l') == Arrived(l)
  {
    hide Fits;
    hide Begun;
  }

  // ---- giving a message ---------------------------------------------------

  /** When a message may be given: a short one while no payload is half sent, a long one if its fragments can
      be numbered. */
  predicate MayBegin(l: Link, size: nat, m: Rmc.Message) {
    if |Rmc.Encode(m)| <= size then Idle(l) else |Rmc.Encode(m)| <= 0x100 * size
  }

  lemma Alone(a: bytes, b: bytes)
    ensures a + b == b <==> a == []
  {
    assert |a + b| == |a| + |b|;
    assert [] + b == b;
  }

  lemma LastTwo<T>(s: seq<T>, a: T, t: seq<T>, b: T)
    ensures s + [a] == t + [b] <==> s == t && a == b
  {
    if s + [a] == t + [b] {
      assert (s + [a])[..|s|] == s && (t + [b])[..|t|] == t;
      assert (s + [a])[|s|] == a && (t + [b])[|t|] == b;
    }
  }

  lemma EncodingsNext(ms: seq<Rmc.Message>, m: Rmc.Message)
    ensures Encodings(ms + [m]) == Encodings(ms) + [Rmc.Encode(m)]
  {
    hide Rmc.Encode;
    assert (ms + [m])[..|ms|] == ms;
  }

  lemma Cancels(a: multiset<bytes>, b: multiset<bytes>, x: bytes)
    ensures a + multiset{x} == b + multiset{x} <==> a == b
  {
    if a + multiset{x} == b + multiset{x} {
      forall y ensures a[y] == b[y] { assert (a + multiset{x})[y] == (b + multiset{x})[y]; }
    }
  }

  lemma ShortConserved(l: Link, l': Link, m: Rmc.Message)
    requires l'.said == l.said + [m] && l'.ended == l.ended + [Rmc.Encode(m)] && l'.tasks == l.tasks
    ensures Conserved(l') <==> Conserved(l)
  {
    hide Rmc.Encode;
    EncodingsNext(l.said, m);
    hide Encodings;
    var x := Rmc.Encode(m);
    Cancels(multiset(Encodings(l.said)), multiset(l.ended) + multiset(Datas(l.tasks)), x);
    assert multiset(l'.ended) + multiset(Datas(l.tasks)) == multiset(l.ended) + multiset(Datas(l.tasks)) + multiset{x};
  }

  lemma LongConserved(l: Link, l': Link, m: Rmc.Message, t: Task)
    requires l'.said == l.said + [m] && l'.ended == l.ended && l'.tasks == l.tasks + [t] && t.data == Rmc.Encode(m)
    ensures Conserved(l') <==> Conserved(l)
  {
    hide Rmc.Encode;
    EncodingsNext(l.said, m);
    hide Encodings;
    var x := Rmc.Encode(m);
    assert Datas(l'.tasks) == Datas(l.tasks) + [x];
    Cancels(multiset(Encodings(l.said)), multiset(l.ended) + multiset(Datas(l.tasks)), x);
    assert multiset(l'.ended) + multiset(Datas(l'.tasks)) == multiset(l.ended) + multiset(Datas(l.tasks)) + multiset{x};
  }

  predicate Short(size: nat, m: Rmc.Message) { |Rmc.Encode(m)| <= size }

  /** The turn that ends a payload. */
  predicate Ends(l: Link, size: nat, k: nat)
    requires k < |l.tasks|
  {
    |l.tasks[k].rest| <= size || l.tasks[k].id == 0
  }

  lemma ShortSteps(l: Link, size: nat, m: Rmc.Message)
    requires Sound(l) && size < 0x1_0000 && |Rmc.Encode(m)| <= size
    ensures Arrived(Say(l, size, m)) == Absorb(Arrived(l), Fragment(Rmc.Encode(m), 0))
    ensures Conserved(Say(l, size, m)) <==> Conserved(l)
  {
    SoundPorts(l);
    hide Sound;
    hide Rmc.Encode;
    hide Absorb;
    ArrivedNext(l.(said := l.said + [m]), Fragment(Rmc.Encode(m), 0));
    ShortConserved(l, Say(l, size, m), m);
    hide FragmentsIn;
    hide AbsorbAll;
  }

  /** A short message keeps the wire true exactly when no payload is half sent. */
  lemma ShortTold(l: Link, size: nat, m: Rmc.Message)
    requires Sound(l) && size < 0x1_0000 && |Rmc.Encode(m)| <= size
    ensures Told(Say(l, size, m), size) <==> Told(l, size) && Idle(l)
    ensures Idle(Say(l, size, m)) == Idle(l)
  {
    hide Rmc.Encode;
    hide Arrived;
    hide Conserved;
    hide Fits;
    hide Begun;
    hide Sound;
    SayFrame(l, size, m);
    ShortSteps(l, size, m);
    hide Say;
    var data, got := Rmc.Encode(m), Arrived(l);
    LastTwo(got.delivered, got.fragBuf + data, l.ended, data);
    Alone(got.fragBuf, data);
  }

  /** A long message keeps it exactly when its fragments can be numbered. */
  lemma LongTold(l: Link, size: nat, m: Rmc.Message)
    requires |Rmc.Encode(m)| > size
    ensures Told(Say(l, size, m), size) <==> Told(l, size) && |Rmc.Encode(m)| <= 0x100 * size
    ensures Idle(Say(l, size, m)) == Idle(l)
  {
    hide Rmc.Encode;
    hide Arrived;
    hide Conserved;
    var t := Task(Rmc.Encode(m), Rmc.Encode(m), 1);
    var l' := Say(l, size, m);
    LongConserved(l, l', m, t);
    LongArrived(l, size, m);
    SayFrame(l, size, m);
    hide Say;
    assert Fits(t, size) <==> |t.data| <= 0x100 * size;
    assert !Begun(t);
    hide Fits;
    hide Begun;
    Grown(l, l', size, t);
  }

  lemma LongArrived(l: Link, size: nat, m: Rmc.Message)
    requires |Rmc.Encode(m)| > size
    ensures Arrived(Say(l, size, m)) == Arrived(l)
  {
    hide Rmc.Encode;
    hide FragmentsIn;
    hide AbsorbAll;
  }

  lemma Grown(l: Link, l': Link, size: nat, t: Task)
    requires l'.tasks == l.tasks + [t] && !Begun(t) && Arrived(l') == Arrived(l)
    ensures AllFit(l', size) <==> AllFit(l, size) && Fits(t, size)
    ensures (Partial(l') <==> Partial(l)) && Idle(l') == Idle(l)
  {
    hide Fits;
    hide Begun;
    hide Arrived;
    assert l'.tasks[|l.tasks|] == t;
    assert forall k :: 0 <= k < |l.tasks| ==> l'.tasks[k] == l.tasks[k];
  }

  lemma SayFrame(l: Link, size: nat, m: Rmc.Message)
    ensures Say(l, size, m).said == l.said + [m]
    ensures Say(l, size, m).ended == if Short(size, m) then l.ended + [Rmc.Encode(m)] else l.ended
    ensures Say(l, size, m).tasks
         == if Short(size, m) then l.tasks else l.tasks + [Task(Rmc.Encode(m), Rmc.Encode(m), 1)]
  {
    hide Rmc.Encode;
  }

  lemma SayTold(l: Link, size: nat, m: Rmc.Message)
    requires Sound(l) && size < 0x1_0000
    ensures Told(Say(l, size, m), size) <==> Told(l, size) && MayBegin(l, size, m)
    ensures Idle(Say(l, size, m)) == Idle(l)
  {
    hide Told;
    hide Idle;
    hide Say;
    hide Rmc.Encode;
    hide Sound;
    if |Rmc.Encode(m)| <= size { ShortTold(l, size, m); } else { LongTold(l, size, m); }
  }

  predicate AllMay(l: Link, size: nat, ms: seq<Rmc.Message>) {
    forall k :: 0 <= k < |ms| ==> MayBegin(l, size, ms[k])
  }

  /** A handler's messages keep it exactly when each of them may be given. */
  lemma {:induction false} SayAllTold(l: Link, size: nat, ms: seq<Rmc.Message>)
    requires Sound(l) && size < 0x1_0000
    ensures Told(SayAll(l, size, ms), size) <==> Told(l, size) && AllMay(l, size, ms)
    ensures Idle(SayAll(l, size, ms)) == Idle(l)
    decreases |ms|
  {
    hide Told;
    hide Idle;
    hide Sound;
    hide Say;
    hide Rmc.Encode;
    if ms == [] {
    } else {
      SaySound(l, size, ms[0]);
      SayTold(l, size, ms[0]);
      SayAllTold(Say(l, size, ms[0]), size, ms[1..]);
      assert forall k :: 0 <= k < |ms| - 1 ==> ms[1..][k] == ms[k + 1];
      assert AllMay(l, size, ms) <==> MayBegin(l, size, ms[0]) && AllMay(l, size, ms[1..]) by {
        if MayBegin(l, size, ms[0]) && AllMay(l, size, ms[1..]) {
          forall k | 0 <= k < |ms| ensures MayBegin(l, size, ms[k]) {
            if k > 0 { assert ms[k] == ms[1..][k - 1]; }
          }
        }
      }
    }
  }

  // ---- a turn of a sending goroutine --------------------------------------

  lemma DatasWithout(ts: seq<Task>, k: nat)
    requires k < |ts|
    ensures Datas(Without(ts, k)) == Datas(ts)[..k] + Datas(ts)[k + 1..]
    ensures multiset(Datas(ts)) == multiset(Datas(Without(ts, k))) + multiset{ts[k].data}
  {
    var ds := Datas(ts);
    assert Datas(Without(ts, k)) == ds[..k] + ds[k + 1..];
    assert ds == ds[..k] + [ds[k]] + ds[k + 1..];
  }

  lemma DroppedLost(l: Link, k: nat)
    requires Conserved(l) && k < |l.tasks|
    ensures !Conserved(l.(tasks := Without(l.tasks, k)))
  {
    hide Encodings;
    DatasWithout(l.tasks, k);
    hide Datas;
    var a, d := multiset(l.ended) + multiset(Datas(Without(l.tasks, k))), l.tasks[k].data;
    assert multiset(Encodings(l.said))[d] == a[d] + 1;
  }

  lemma FinishConserved(l: Link, l': Link, k: nat)
    requires Conserved(l) && k < |l.tasks|
    requires l'.said == l.said && l'.ended == l.ended + [l.tasks[k].data] && l'.tasks == Without(l.tasks, k)
    ensures Conserved(l')
  {
    hide Encodings;
    DatasWithout(l.tasks, k);
    hide Datas;
  }

  lemma IdleWithout(l: Link, k: nat)
    requires k < |l.tasks|
    ensures Idle(l.(tasks := Without(l.tasks, k))) <==> IdleBut(l, k)
  {
    var ts := Without(l.tasks, k);
    hide Begun;
    if IdleBut(l, k) {
      forall j | 0 <= j < |ts| ensures !Begun(ts[j]) { assert ts[j] == l.tasks[if j < k then j else j + 1]; }
    }
    if Idle(l.(tasks := ts)) {
      forall j | 0 <= j < |l.tasks| && j != k ensures !Begun(l.tasks[j]) {
        assert l.tasks[j] == ts[if j < k then j else j - 1];
      }
    }
  }

  lemma TurnFrame(l: Link, size: nat, k: nat)
    requires size > 0 && k < |l.tasks| && !l.state.Closed?
    ensures var l' := Turn(l, size, k);
            && l'.said == l.said
            && (if Ends(l, size, k) then l'.ended == l.ended + [l.tasks[k].data] && l'.tasks == Without(l.tasks, k)
                else l'.ended == l.ended && Datas(l'.tasks) == Datas(l.tasks))
  {
  }

  lemma FitWithout(l: Link, l': Link, size: nat, k: nat)
    requires AllFit(l, size) && k < |l.tasks| && l'.tasks == Without(l.tasks, k)
    ensures AllFit(l', size) && (Idle(l') <==> IdleBut(l, k))
  {
    hide Begun;
    IdleWithout(l, k);
    hide Fits;
    forall j | 0 <= j < |l'.tasks| ensures Fits(l'.tasks[j], size) {
      assert l'.tasks[j] == l.tasks[if j < k then j else j + 1];
    }
  }

  lemma LastArrived(l: Link, size: nat, k: nat)
    requires Sound(l) && k < |l.tasks| && 0 < size < 0x1_0000 && !l.state.Closed? && |l.tasks[k].rest| <= size
    ensures Arrived(Turn(l, size, k)) == Absorb(Arrived(l), Fragment(l.tasks[k].rest, 0))
  {
    SoundPorts(l);
    hide Sound;
    hide Absorb;
    ArrivedNext(l.(tasks := Without(l.tasks, k)), Fragment(l.tasks[k].rest, 0));
    hide FragmentsIn;
    hide AbsorbAll;
  }

  /** The last fragment of a payload keeps the wire true exactly when no other payload is half sent. */
  lemma LastTurnTold(l: Link, size: nat, k: nat)
    requires Told(l, size) && Sound(l) && k < |l.tasks| && 0 < size < 0x1_0000
    requires !l.state.Closed? && |l.tasks[k].rest| <= size
    ensures Told(Turn(l, size, k), size) <==> IdleBut(l, k)
  {
    hide Sound;
    hide Arrived;
    hide Conserved;
    hide Datas;
    var t, l' := l.tasks[k], Turn(l, size, k);
    assert Fits(t, size) && Begun(t);
    TurnFrame(l, size, k);
    LastArrived(l, size, k);
    hide Turn;
    FinishConserved(l, l', k);
    FitWithout(l, l', size, k);
    hide AllFit;
    hide IdleBut;
    assert Arrived(l').delivered == l'.ended;
    if Idle(l') { assert Partial(l'); }
  }

  lemma SoundPorts(l: Link)
    requires Sound(l)
    ensures l.ports.srcType < 0x10 && l.ports.dstType < 0x10
  {
  }

  lemma MoreArrived(l: Link, size: nat, k: nat)
    requires Sound(l) && k < |l.tasks| && 0 < size < 0x1_0000
    requires !l.state.Closed? && |l.tasks[k].rest| > size && l.tasks[k].id != 0
    ensures var t, l' := l.tasks[k], Turn(l, size, k);
            && Arrived(l') == Absorb(Arrived(l), Fragment(t.rest[..size], t.id))
            && l'.tasks == l.tasks[k := Task(t.data, t.rest[size..], (t.id + 1) % 0x100)]
            && l'.said == l.said && l'.ended == l.ended
  {
    SoundPorts(l);
    hide Sound;
    hide Absorb;
    var t := l.tasks[k];
    ArrivedNext(l.(tasks := l.tasks[k := Task(t.data, t.rest[size..], (t.id + 1) % 0x100)]),
                Fragment(t.rest[..size], t.id));
    hide FragmentsIn;
    hide AbsorbAll;
  }

  lemma MoreFits(t: Task, size: nat)
    requires Fits(t, size) && |t.rest| > size > 0 && |t.rest| <= |t.data|
    ensures t.id != 0
    ensures var t' := Task(t.data, t.rest[size..], (t.id + 1) % 0x100);
            Fits(t', size) && Begun(t') && t.rest[..size] + t'.rest == t.rest
  {
    LeftStep(if t.id == 0 then 1 else t.id, size);
  }

  /** So does any other fragment. */
  lemma MoreTurnTold(l: Link, size: nat, k: nat)
    requires Told(l, size) && Sound(l) && k < |l.tasks| && 0 < size < 0x1_0000
    requires !l.state.Closed? && |l.tasks[k].rest| > size
    ensures Told(Turn(l, size, k), size) <==> IdleBut(l, k)
  {
    hide Sound;
    hide Arrived;
    var t, l' := l.tasks[k], Turn(l, size, k);
    assert |t.rest| <= |t.data| by {
      if Begun(t) { assert |Arrived(l).fragBuf + t.rest| == |t.data|; }
    }
    MoreFits(t, size);
    hide Fits;
    hide Begun;
    MoreArrived(l, size, k);
    hide Turn;
    assert Datas(l'.tasks) == Datas(l.tasks);
    assert Conserved(l') == Conserved(l);
    hide Conserved;
    hide Datas;
    assert AllFit(l', size);
    MorePartial(l, l', k, t.rest[..size], Task(t.data, t.rest[size..], (t.id + 1) % 0x100));
    hide Partial;
  }

  lemma MorePartial(l: Link, l': Link, k: nat, chunk: bytes, t': Task)
    requires k < |l.tasks| && Partial(l) && chunk != [] && Begun(t')
    requires Arrived(l').fragBuf == Arrived(l).fragBuf + chunk && l'.tasks == l.tasks[k := t']
    requires t'.data == l.tasks[k].data && chunk + t'.rest == l.tasks[k].rest
    ensures Partial(l') <==> IdleBut(l, k)
  {
    var got, got' := Arrived(l).fragBuf, Arrived(l').fragBuf;
    hide Arrived;
    assert l'.tasks[k] == t' && !Idle(l') && got' != [];
    Assoc(got, chunk, t'.rest);
    if IdleBut(l, k) {
      if !Begun(l.tasks[k]) {
        assert Idle(l);
        assert [] + l.tasks[k].rest == l.tasks[k].rest;
      }
      assert got + l.tasks[k].rest == l.tasks[k].data;
    } else {
      var j :| 0 <= j < |l.tasks| && j != k && Begun(l.tasks[j]);
      assert l'.tasks[j] == l.tasks[j];
      assert |got' + l.tasks[j].rest| > |got + l.tasks[j].rest|;
    }
  }

  lemma TurnTold(l: Link, size: nat, k: nat)
    requires Told(l, size) && Sound(l) && k < |l.tasks| && 0 < size < 0x1_0000
    ensures Told(Turn(l, size, k), size) <==> !l.state.Closed? && IdleBut(l, k)
  {
    if l.state.Closed? {
      hide Arrived;
      DroppedLost(l, k);
    } else {
      hide Told;
      hide Sound;
      hide Turn;
      if |l.tasks[k].rest| <= size { LastTurnTold(l, size, k); } else { MoreTurnTold(l, size, k); }
    }
  }

  // ---- a retransmission ---------------------------------------------------

  /** A packet sent again is never told as it was said: there is a payload too many, or one too long. */
  lemma ResendTold(l: Link, size: nat, k: nat)
    requires Told(l, size) && Sound(l) && k < |l.batch|
    ensures !Told(Resend(l, k), size)
  {
    var p := l.batch[k];
    assert Substantial(p);
    hide Sound;
    ArrivedMore(l, p);
    var l' := Resend(l, k);
    assert Arrived(l') == Absorb(Arrived(l), FragmentOf(p));
    hide Arrived;
    hide Conserved;
    hide AllFit;
    hide Normal;
    if p.fragmentID == 0 {
      assert |Arrived(l').delivered| == |l.ended| + 1;
    } else if Idle(l) {
      assert Idle(l');
    } else {
      var j :| 0 <= j < |l.tasks| && Begun(l.tasks[j]);
      assert l'.tasks[j] == l.tasks[j];
      assert |Arrived(l').fragBuf + l.tasks[j].rest| > |l.tasks[j].data|;
    }
  }

  // ---- exactly which steps keep it ----------------------------------------

  /** The messages a received packet leads to. */
  function Replies(srv: Server, l: Link, p: Packet): seq<Rmc.Message> {
    if IsFragment(p) && p.fragmentID == 0
    then AnswersTo(srv, |l.inbound.delivered| + 1, l.inbound.fragBuf + p.payload) else []
  }

  /** The steps that keep the wire true: messages given, by anyone or by a handler, as they may be; turns of a
      goroutine on an open connection while no other payload is half sent; no packet sent again. */
  predicate Fair(srv: Server, l: Link, a: Act)
    requires Enabled(l, a)
  {
    match a
    case Speak(m) => MayBegin(l, Size(srv), m)
    case TakeTurn(k) => !l.state.Closed? && IdleBut(l, k)
    case Hear(p) => AllMay(l, Size(srv), Replies(srv, l, p))
    case Beat(_) => true
    case Repeat(_) => false
    case HangUp => true
  }

  lemma AbsorbCounts(i: Inbound, f: Fragment)
    ensures f.id == 0 ==> |Absorb(i, f).delivered| == |i.delivered| + 1
  {
  }

  /** A received fragment, with the messages its handler sends. */
  lemma FragmentTold(srv: Server, l: Link, p: Packet)
    requires Proper(srv) && Told(l, Size(srv)) && Sound(l) && Heard(p) && IsFragment(p)
    ensures Told(OnPacket(srv, l, p), Size(srv)) <==> AllMay(l, Size(srv), Replies(srv, l, p))
  {
    SizeFits(srv);
    hide Proper;
    hide HasBit;
    hide AnswersTo;
    hide Absorb;
    hide Normal;
    hide Substantial;
    hide FragmentsIn;
    AckSound(l, p);
    AckFrame(l, p);
    var a := AckIfNeeded(l, p);
    hide AckIfNeeded;
    var l1 := a.(inbound := Absorb(l.inbound, FragmentOf(p)));
    assert Sound(l1);
    SameTold(l, l1, Size(srv));
    hide Told;
    hide Sound;
    hide Idle;
    hide Rmc.Encode;
    AbsorbCounts(l.inbound, FragmentOf(p));
    if p.fragmentID == 0 {
      var ms := AnswersTo(srv, |l1.inbound.delivered|, l.inbound.fragBuf + p.payload);
      SayAllTold(l1, Size(srv), ms);
      assert AllMay(l1, Size(srv), ms) == AllMay(l, Size(srv), ms);
    }
    hide SayAll;
  }

  lemma ControlTold(srv: Server, l: Link, p: Packet)
    requires Proper(srv) && Told(l, Size(srv)) && Sound(l) && Heard(p) && !IsFragment(p)
    ensures Told(OnPacket(srv, l, p), Size(srv))
  {
    hide OnPacket;
    hide FragmentsIn;
    hide Sound;
    hide Proper;
    hide Told;
    ControlStep(srv, l, p);
    SameTold(l, OnPacket(srv, l, p), Size(srv));
  }

  /** Of all steps exactly the fair ones keep the wire telling what was said. */
  lemma ToldStep(srv: Server, l: Link, a: Act)
    requires Proper(srv) && Told(l, Size(srv)) && Sound(l) && Enabled(l, a)
    ensures Told(Apply(srv, l, a), Size(srv)) <==> Fair(srv, l, a)
  {
    SizeFits(srv);
    hide Proper;
    hide Told;
    hide Sound;
    hide OnPacket;
    hide Say;
    hide Turn;
    hide Resend;
    hide IsFragment;
    hide FragmentsIn;
    hide MayBegin;
    hide IdleBut;
    match a
    case Speak(m) => SayTold(l, Size(srv), m);
    case TakeTurn(k) => TurnTold(l, Size(srv), k);
    case Hear(p) => if IsFragment(p) { FragmentTold(srv, l, p); } else { ControlTold(srv, l, p); }
    case Beat(order) => SameTold(l, Tick(l, order), Size(srv));
    case Repeat(k) => ResendTold(l, Size(srv), k);
    case HangUp => SameTold(l, Shut(l), Size(srv));
  }

  // ---- whole runs ---------------------------------------------------------

  predicate AllFair(srv: Server, acts: seq<Act>) {
    forall k :: 0 <= k < |acts| && Run(srv, acts[..k]).Some? && Enabled(Run(srv, acts[..k]).value, acts[k]) ==>
      Fair(srv, Run(srv, acts[..k]).value, acts[k])
  }

  predicate AlwaysTold(srv: Server, acts: seq<Act>) {
    forall k :: 0 <= k <= |acts| && Run(srv, acts[..k]).Some? ==> Told(Run(srv, acts[..k]).value, Size(srv))
  }

  lemma NewTold(size: nat)
    ensures Told(NewLink(), size)
  {
    assert FragmentsIn([]) == [];
  }

  lemma {:induction false} ToldSoFar(srv: Server, acts: seq<Act>, k: nat)
    requires Proper(srv) && Run(srv, acts).Some? && AllFair(srv, acts) && k <= |acts|
    ensures Run(srv, acts[..k]).Some? && Told(Run(srv, acts[..k]).value, Size(srv))
  {
    hide Told;
    hide Apply;
    hide Enabled;
    hide Fair;
    hide Proper;
    hide Sound;
    if k == 0 {
      assert acts[..0] == [];
      NewTold(Size(srv));
    } else {
      ToldSoFar(srv, acts, k - 1);
      RunStep(srv, acts, k - 1);
      hide Run;
      ToldStep(srv, Run(srv, acts[..k - 1]).value, acts[k - 1]);
    }
  }

  /** Over any run, the wire tells throughout what was said if and only if every step is fair. */
  lemma ToldExactly(srv: Server, acts: seq<Act>)
    requires Proper(srv) && Run(srv, acts).Some?
    ensures AlwaysTold(srv, acts) <==> AllFair(srv, acts)
  {
    hide Run;
    hide Told;
    hide Fair;
    hide Enabled;
    hide Proper;
    hide Sound;
    if AllFair(srv, acts) {
      forall k | 0 <= k <= |acts| && Run(srv, acts[..k]).Some? ensures Told(Run(srv, acts[..k]).value, Size(srv)) {
        ToldSoFar(srv, acts, k);
      }
    }
    if AlwaysTold(srv, acts) {
      forall k | 0 <= k < |acts| && Run(srv, acts[..k]).Some? && Enabled(Run(srv, acts[..k]).value, acts[k])
        ensures Fair(srv, Run(srv, acts[..k]).value, acts[k])
      {
        RunStep(srv, acts, k);
        ToldStep(srv, Run(srv, acts[..k]).value, acts[k]);
      }
    }
  }

  // ---- end to end ---------------------------------------------------------

  function ParseAll(es: seq<bytes>): seq<Option<Rmc.Message>> {
    if es == [] then [] else ParseAll(es[..|es| - 1]) + [Rmc.Parse(es[|es| - 1])]
  }

  function Somes(ms: seq<Rmc.Message>): seq<Option<Rmc.Message>> {
    if ms == [] then [] else Somes(ms[..|ms| - 1]) + [Some(ms[|ms| - 1])]
  }

  lemma {:induction false} AbsorbShift(b: bytes, d: seq<bytes>, fs: seq<Fragment>)
    ensures var x := AbsorbAll(Inbound(b, []), fs);
            AbsorbAll(Inbound(b, d), fs) == Inbound(x.fragBuf, d + x.delivered)
    decreases |fs|
  {
    if fs == [] {
      assert d + [] == d;
    } else if fs[0].id != 0 {
      AbsorbShift(b + fs[0].chunk, d, fs[1..]);
    } else {
      var e := [b + fs[0].chunk];
      assert [] + e == e;
      AbsorbShift([], d + e, fs[1..]);
      AbsorbShift([], e, fs[1..]);
      var y := AbsorbAll(Inbound([], []), fs[1..]);
      assert (d + e) + y.delivered == d + (e + y.delivered);
    }
  }

  /** The wire of a sender, fed in any chunks to any receiver. */
  lemma Received(sender: Link, srv: Server, to: Link, chunks: seq<bytes>)
    requires AllNormal(sender.sent) && to.inbound.fragBuf == []
    requires Flatten(chunks) == EncodeAll(sender.sent)
    ensures var got := FeedAll(srv, Fed([], to), chunks);
            && got.recvBuf == []
            && got.link.inbound == Inbound(Arrived(sender).fragBuf, to.inbound.delivered + Arrived(sender).delivered)
  {
    hide OnPackets;
    hide AbsorbAll;
    hide FragmentsIn;
    hide Normal;
    hide FeedAll;
    var ps := sender.sent;
    DecodeEncoded(ps, []);
    hide DecodeFirst;
    assert EncodeAll(ps) + [] == EncodeAll(ps);
    hide EncodeAll;
    assert [] + Flatten(chunks) == Flatten(chunks);
    assert Decode([]).packets == [];
    FeedAnyChunks(srv, Fed([], to), chunks);
    FragmentsOnly(srv, to, ps);
    AbsorbShift([], to.inbound.delivered, FragmentsIn(ps));
    assert to.inbound == Inbound([], to.inbound.delivered);
  }

  lemma {:induction false} EncodingsParse(ms: seq<Rmc.Message>)
    requires forall k :: 0 <= k < |ms| ==> Rmc.Carried(ms[k])
    ensures ParseAll(Encodings(ms)) == Somes(ms)
    decreases |ms|
  {
    hide Rmc.Encode;
    hide Rmc.Parse;
    hide Rmc.Carried;
    if ms == [] {
    } else {
      var init, last := ms[..|ms| - 1], ms[|ms| - 1];
      Rmc.RoundTripExactly(last);
      EncodingsParse(init);
      var es := Encodings(ms);
      assert es[..|es| - 1] == Encodings(init) && es[|es| - 1] == Rmc.Encode(last);
    }
  }

  predicate AllCarried(ms: seq<Rmc.Message>) { forall k :: 0 <= k < |ms| ==> Rmc.Carried(ms[k]) }

  lemma {:induction false} Encoded(ms: seq<Rmc.Message>, e: bytes)
    requires e in Encodings(ms)
    ensures exists k :: 0 <= k < |ms| && Rmc.Encode(ms[k]) == e
    decreases |ms|
  {
    hide Rmc.Encode;
    if ms == [] {
    } else {
      var init := ms[..|ms| - 1];
      if e in Encodings(init) {
        Encoded(init, e);
        var k :| 0 <= k < |init| && Rmc.Encode(init[k]) == e;
        assert ms[k] == init[k];
      }
    }
  }

  /** A delivered payload parses to a message that was said. */
  lemma EndedParses(l: Link, e: bytes)
    requires Conserved(l) && AllCarried(l.said) && e in l.ended
    ensures Rmc.Parse(e).Some? && Rmc.Parse(e).value in l.said
  {
    hide Rmc.Encode;
    hide Rmc.Parse;
    hide Rmc.Carried;
    hide Encodings;
    hide Datas;
    assert e in multiset(l.ended);
    assert e in multiset(Encodings(l.said));
    Encoded(l.said, e);
    var k :| 0 <= k < |l.said| && Rmc.Encode(l.said[k]) == e;
    Rmc.RoundTripExactly(l.said[k]);
  }

  /** Over any fair run of a sender, control traffic, handler answers and turns of any number of sending
      goroutines in between, its bytes, cut in any chunks and fed to any receiver, are delivered as exactly the
      payloads whose sending has ended, whole and in that order. Every message said is among them, or still
      with a goroutine, as often as it was said; every one delivered parses to a message said; and with none
      half sent the receiver is left ready for more. */
  lemma EndToEnd(srv: Server, acts: seq<Act>, other: Server, to: Link, chunks: seq<bytes>)
    requires Proper(srv) && Run(srv, acts).Some? && AllFair(srv, acts) && to.inbound.fragBuf == []
    requires Flatten(chunks) == EncodeAll(Run(srv, acts).value.sent)
    ensures var l := Run(srv, acts).value;
            var got := FeedAll(other, Fed([], to), chunks);
            && got.recvBuf == [] && (Idle(l) <==> got.link.inbound.fragBuf == [])
            && got.link.inbound.delivered == to.inbound.delivered + l.ended
            && multiset(Encodings(l.said)) == multiset(l.ended) + multiset(Datas(l.tasks))
            && (AllCarried(l.said) ==> forall e :: e in l.ended ==> Rmc.Parse(e).Some? && Rmc.Parse(e).value in l.said)
  {
    hide Run;
    hide Proper;
    hide FeedAll;
    hide EncodeAll;
    hide Arrived;
    hide Idle;
    hide AllFit;
    hide Rmc.Encode;
    hide Rmc.Parse;
    hide AllFair;
    hide AllCarried;
    ToldSoFar(srv, acts, |acts|);
    assert acts[..|acts|] == acts;
    AlwaysSound(srv, acts);
    var l := Run(srv, acts).value;
    assert AllNormal(l.sent);
    hide Sound;
    Received(l, other, to, chunks);
    if AllCarried(l.said) {
      forall e | e in l.ended ensures Rmc.Parse(e).Some? && Rmc.Parse(e).value in l.said { EndedParses(l, e); }
    }
  }

  // ---- one payload alone --------------------------------------------------

  /** A lone goroutine of an open connection runs to its end. */
  function Turns(l: Link, size: nat): Link
    requires size > 0 && |l.tasks| <= 1 && !l.state.Closed?
    decreases if l.tasks == [] then 0 else 1 + |l.tasks[0].rest|
  {
    if l.tasks == [] then l else Turns(Turn(l, size, 0), size)
  }

  lemma Carries(l: Link, f: Fragment)
    ensures FragmentsIn(SendFragment(l, f).sent) == FragmentsIn(l.sent) + [f]
  {
    var p := DataPacket(l, f);
    assert IsFragment(p) && FragmentOf(p) == f;
    hide IsFragment;
    FragmentsAppend(l.sent, [p]);
    assert [p][1..] == [];
    assert FragmentsIn([p]) == [f];
  }

  lemma TurnsNext(l: Link, size: nat)
    requires size > 0 && |l.tasks| <= 1 && !l.state.Closed?
    ensures l.tasks == [] ==> Turns(l, size) == l
    ensures l.tasks != [] ==> var l' := Turn(l, size, 0);
                              |l'.tasks| <= 1 && !l'.state.Closed? && Turns(l, size) == Turns(l', size)
  {
  }

  /** What it puts on the wire is exactly the split of what it had left. */
  lemma {:induction false} TurnsSplit(l: Link, size: nat)
    requires size > 0 && |l.tasks| == 1 && !l.state.Closed?
    ensures FragmentsIn(Turns(l, size).sent)
         == FragmentsIn(l.sent) + Split(l.tasks[0].rest, size, l.tasks[0].id)
    decreases |l.tasks[0].rest|
  {
    hide FragmentsIn;
    hide Turns;
    hide Turn;
    var t, l' := l.tasks[0], Turn(l, size, 0);
    LoneTurn(l, size);
    TurnsNext(l, size);
    if |t.rest| <= size || t.id == 0 {
      TurnsNext(l', size);
    } else {
      TurnsSplit(l', size);
      var f, tail := Fragment(t.rest[..size], t.id), Split(t.rest[size..], size, (t.id + 1) % 0x100);
      assert FragmentsIn(l.sent) + ([f] + tail) == (FragmentsIn(l.sent) + [f]) + tail;
    }
  }

  lemma LoneTurn(l: Link, size: nat)
    requires size > 0 && |l.tasks| == 1 && !l.state.Closed?
    ensures var t, l' := l.tasks[0], Turn(l, size, 0);
            && FragmentsIn(l'.sent) == FragmentsIn(l.sent) + [Split(t.rest, size, t.id)[0]]
            && l'.tasks == (if |t.rest| <= size || t.id == 0 then []
                            else [Task(t.data, t.rest[size..], (t.id + 1) % 0x100)])
  {
    hide FragmentsIn;
    var t := l.tasks[0];
    var f := Split(t.rest, size, t.id)[0];
    var l1 := l.(tasks := Turn(l, size, 0).tasks);
    Carries(l1, f);
    assert Turn(l, size, 0).sent == SendFragment(l1, f).sent;
  }

  /** A message sent alone goes out as its split. */
  lemma LoneSplit(l: Link, size: nat, m: Rmc.Message)
    requires size > 0 && l.tasks == [] && !l.state.Closed?
    ensures |Say(l, size, m).tasks| <= 1 && !Say(l, size, m).state.Closed?
    ensures FragmentsIn(Turns(Say(l, size, m), size).sent) == FragmentsIn(l.sent) + Split1(Rmc.Encode(m), size)
  {
    hide Rmc.Encode;
    hide FragmentsIn;
    var data := Rmc.Encode(m);
    if |data| <= size {
      Carries(l.(said := l.said + [m]), Fragment(data, 0));
    } else {
      TurnsSplit(Say(l, size, m), size);
    }
  }

  /** A message sent alone on an open connection arrives as the first 256 fragments' worth of it, and whole if and
      only if it is no longer. */
  lemma LoneMessage(l: Link, size: nat, m: Rmc.Message)
    requires size > 0 && l.tasks == [] && !l.state.Closed? && Arrived(l).fragBuf == []
    ensures |Say(l, size, m).tasks| <= 1 && !Say(l, size, m).state.Closed?
    ensures var data := Rmc.Encode(m);
            var done := Turns(Say(l, size, m), size);
            && Arrived(done) == Inbound([], Arrived(l).delivered + [data[..Min(|data|, 0x100 * size)]])
            && (Arrived(done).delivered == Arrived(l).delivered + [data] <==> |data| <= 0x100 * size)
  {
    hide Rmc.Encode;
    hide Say;
    hide FragmentsIn;
    hide AbsorbAll;
    var data := Rmc.Encode(m);
    LoneSplit(l, size, m);
    hide Turns;
    AbsorbAppend(Inbound([], []), FragmentsIn(l.sent), Split1(data, size));
    SplitAbsorbed(Arrived(l), data, size, 1);
    hide Split;
    var kept := data[..Min(|data|, 0x100 * size)];
    assert [] + kept == kept;
    LastTwo(Arrived(l).delivered, kept, Arrived(l).delivered, data);
    assert |data| <= 0x100 * size ==> kept == data;
  }

  /** The fragments of a message sent alone, one by one: each but the last is as long as the settings say, 1300 bytes
      where they say nothing, and they are numbered from 1 on; the last has what is left, under id 0. */
  lemma LoneFragments(srv: Server, l: Link, m: Rmc.Message, size: nat, k: nat)
    requires size == if srv.fragmentSize > 0 then srv.fragmentSize else 1300
    requires l.tasks == [] && !l.state.Closed? && |Rmc.Encode(m)| <= 0x100 * size
    ensures |Say(l, Size(srv), m).tasks| <= 1 && !Say(l, Size(srv), m).state.Closed?
    ensures var before, after := FragmentsIn(l.sent), FragmentsIn(Turns(Say(l, Size(srv), m), Size(srv)).sent);
            var n := |after| - |before|;
            && before <= after && n > 0
            && (k < n ==> KthOf(after[|before| + k], Rmc.Encode(m), size, 1, k, n))
  {
    hide Rmc.Encode;
    hide FragmentsIn;
    hide Say;
    hide KthOf;
    assert Size(srv) == size;
    LoneSplit(l, size, m);
    hide Turns;
    var data := Rmc.Encode(m);
    var fs := Split1(data, size);
    assert |fs| > 0;
    if k < |fs| { SplitShape(data, size, 1, k); }
    hide Split;
  }

  // ---- what unfair steps do -----------------------------------------------

  /** A message sent in one fragment while a longer one is half sent ends up inside it: what arrives first is
      the beginning of the one with the other behind it. */
  lemma MixedFragments(srv: Server, a: Rmc.Message, b: Rmc.Message)
    requires Size(srv) < 0x1_0000 && |Rmc.Encode(a)| > Size(srv) && |Rmc.Encode(b)| <= Size(srv)
    ensures var l := Say(Turn(Say(NewLink(), Size(srv), a), Size(srv), 0), Size(srv), b);
            && l.said == [a, b] && l.ended == [Rmc.Encode(b)]
            && Arrived(l) == Inbound([], [Rmc.Encode(a)[..Size(srv)] + Rmc.Encode(b)])
  {
    var size := Size(srv);
    var data := Rmc.Encode(a);
    var f, g := Fragment(data[..size], 1), Fragment(Rmc.Encode(b), 0);
    hide Rmc.Encode;
    var l1 := Say(NewLink(), size, a);
    var mid := l1.(tasks := l1.tasks[0 := Task(data, data[size..], 2)]);
    ArrivedNext(mid, f);
    var l2 := SendFragment(mid, f);
    assert Turn(l1, size, 0) == l2;
    ArrivedNext(l2.(said := l2.said + [b]), g);
    assert Arrived(mid) == Inbound([], []) by { assert FragmentsIn([]) == []; }
    assert Arrived(l2.(said := l2.said + [b])) == Arrived(l2);
    var l3 := Say(l2, size, b);
    assert l3.sent == SendFragment(l2.(said := l2.said + [b]), g).sent;
    assert Arrived(l3) == Arrived(SendFragment(l2.(said := l2.said + [b]), g));
    hide SendFragment;
    hide Arrived;
    assert [] + f.chunk == f.chunk;
  }

  /** A receiver has no sequence check: a fragment sent again is absorbed again, so a message in one fragment
      is delivered twice. */
  lemma SentAgain(srv: Server, to: Link, p: Packet)
    requires IsFragment(p)
    ensures OnPackets(srv, to, [p, p]).inbound == Absorb(Absorb(to.inbound, FragmentOf(p)), FragmentOf(p))
    ensures p.fragmentID == 0 && to.inbound.fragBuf == [] ==>
              OnPackets(srv, to, [p, p]).inbound == Inbound([], to.inbound.delivered + [p.payload, p.payload])
  {
    hide OnPackets;
    hide IsFragment;
    FragmentsOnly(srv, to, [p, p]);
    var f := FragmentOf(p);
    assert [p, p][1..] == [p] && [p][1..] == [];
    assert FragmentsIn([p]) == [f];
    assert FragmentsIn([p, p]) == [f, f];
    assert [f, f][1..] == [f] && [f][1..] == [];
    AbsorbOne(Absorb(to.inbound, f), f);
    assert AbsorbAll(to.inbound, [f, f]) == AbsorbAll(Absorb(to.inbound, f), [f]);
    assert [] + p.payload == p.payload;
    var d := to.inbound.delivered;
    assert (d + [p.payload]) + [p.payload] == d + [p.payload, p.payload];
  }
}
