/** Whether payloads arrive in the order in which their messages were given (nextendo-nex/endpoint.go). */
module SaidOrder {
  import opened Bytes
  import opened Fragments
  import opened PrudpLite
  import opened Endpoint
  import opened Transport
  import opened Delivery
  import Rmc

  /** What has ended, and what the goroutines hold, is in the order in which it was said. */
  predicate InOrder(l: Link) { Encodings(l.said) == l.ended + Datas(l.tasks) }

  /** A short message overtakes nothing. */
  predicate OrderlyAll(l: Link, size: nat, ms: seq<Rmc.Message>) {
    forall k :: 0 <= k < |ms| && Short(size, ms[k]) ==> l.tasks == [] && forall j :: 0 <= j < k ==> Short(size, ms[j])
  }

  /** Steps that let nothing overtake: a short message is given while no goroutine holds one, and a payload ends
      before no different one given earlier. */
  predicate Orderly(srv: Server, l: Link, a: Act)
    requires Enabled(l, a)
  {
    match a
    case Speak(m) => Short(Size(srv), m) ==> l.tasks == []
    case TakeTurn(k) =>
      Ends(l, Size(srv), k) ==> forall j :: 0 <= j < k ==> l.tasks[j].data == l.tasks[k].data
    case Hear(p) => OrderlyAll(l, Size(srv), Replies(srv, l, p))
    case _ => true
  }

  predicate AllLong(l: Link, size: nat) { forall k :: 0 <= k < |l.tasks| ==> |l.tasks[k].data| > size }

  lemma SayInOrder(l: Link, size: nat, m: Rmc.Message)
    requires AllLong(l, size)
    ensures InOrder(Say(l, size, m)) <==> InOrder(l) && (Short(size, m) ==> l.tasks == [])
    ensures AllLong(Say(l, size, m), size)
    ensures Say(l, size, m).tasks
         == if Short(size, m) then l.tasks else l.tasks + [Task(Rmc.Encode(m), Rmc.Encode(m), 1)]
  {
    hide Rmc.Encode;
    hide SendFragment;
    SayFrame(l, size, m);
    EncodingsNext(l.said, m);
    hide Encodings;
    var x := Rmc.Encode(m);
    var l' := Say(l, size, m);
    var ds := Datas(l.tasks);
    if |x| <= size {
      if l.tasks == [] {
        assert ds == [] && l.ended + ds == l.ended && l'.ended + Datas(l'.tasks) == l.ended + [x];
        LastTwo(Encodings(l.said), x, l.ended, x);
      } else {
        var d := ds[|ds| - 1];
        assert l'.ended + ds == (l'.ended + ds[..|ds| - 1]) + [d];
        LastTwo(Encodings(l.said), x, l'.ended + ds[..|ds| - 1], d);
      }
    } else {
      assert Datas(l'.tasks) == ds + [x];
      assert l.ended + (ds + [x]) == (l.ended + ds) + [x];
      LastTwo(Encodings(l.said), x, l.ended + ds, x);
    }
  }

  lemma {:induction false} SayAllInOrder(l: Link, size: nat, ms: seq<Rmc.Message>)
    requires AllLong(l, size)
    ensures InOrder(SayAll(l, size, ms)) <==> InOrder(l) && OrderlyAll(l, size, ms)
    decreases |ms|
  {
    hide InOrder;
    hide AllLong;
    hide Rmc.Encode;
    if ms == [] {
    } else {
      var n := Say(l, size, ms[0]);
      SayInOrder(l, size, ms[0]);
      hide Say;
      SayAllInOrder(n, size, ms[1..]);
      OrderlyNext(l, n, size, ms);
    }
  }

  lemma OrderlyNext(l: Link, n: Link, size: nat, ms: seq<Rmc.Message>)
    requires ms != [] && (n.tasks == [] <==> Short(size, ms[0]) && l.tasks == [])
    ensures OrderlyAll(l, size, ms) <==> (Short(size, ms[0]) ==> l.tasks == []) && OrderlyAll(n, size, ms[1..])
  {
    hide Short;
    var tail := ms[1..];
    if OrderlyAll(l, size, ms) {
      forall k | 0 <= k < |tail| && Short(size, tail[k])
        ensures n.tasks == [] && forall j :: 0 <= j < k ==> Short(size, tail[j])
      {
        assert tail[k] == ms[k + 1];
        forall j | 0 <= j < k ensures Short(size, tail[j]) { assert tail[j] == ms[j + 1]; }
      }
    }
    if (Short(size, ms[0]) ==> l.tasks == []) && OrderlyAll(n, size, tail) {
      forall k | 0 <= k < |ms| && Short(size, ms[k])
        ensures l.tasks == [] && forall j :: 0 <= j < k ==> Short(size, ms[j])
      {
        if k > 0 {
          assert ms[k] == tail[k - 1];
          forall j | 0 <= j < k ensures Short(size, ms[j]) { if j > 0 { assert ms[j] == tail[j - 1]; } }
        }
      }
    }
  }

  /** Moving the last element to the front changes nothing exactly when all before it equal it. */
  lemma Rotated(ds: seq<bytes>, x: bytes)
    ensures ds + [x] == [x] + ds <==> forall j :: 0 <= j < |ds| ==> ds[j] == x
  {
    if ds + [x] == [x] + ds {
      forall j | 0 <= j < |ds| ensures ds[j] == x { RotatedAt(ds, x, j); }
    }
  }

  lemma {:induction false} RotatedAt(ds: seq<bytes>, x: bytes, j: nat)
    requires ds + [x] == [x] + ds && j < |ds|
    ensures ds[j] == x
    decreases j
  {
    assert ds[j] == (ds + [x])[j] == ([x] + ds)[j];
    if j == 0 {
    } else {
      RotatedAt(ds, x, j - 1);
    }
  }

  /** Taking the k-th element out and appending it to what is before. */
  lemma Moved(e: seq<bytes>, ds: seq<bytes>, k: nat)
    requires k < |ds|
    ensures e + ds == (e + [ds[k]]) + (ds[..k] + ds[k + 1..]) <==> forall j :: 0 <= j < k ==> ds[j] == ds[k]
  {
    var a, x, b := ds[..k], ds[k], ds[k + 1..];
    Rotated(a, x);
    SameMiddle(e, a + [x], [x] + a, b);
    assert ds == (a + [x]) + b;
    assert e + ((a + [x]) + b) == e + (a + [x]) + b;
    assert (e + [x]) + (a + b) == e + ([x] + a) + b;
  }

  lemma TurnInOrder(l: Link, size: nat, k: nat)
    requires InOrder(l) && size > 0 && k < |l.tasks| && !l.state.Closed?
    ensures InOrder(Turn(l, size, k)) <==>
              (Ends(l, size, k) ==> forall j :: 0 <= j < k ==> l.tasks[j].data == l.tasks[k].data)
  {
    hide Encodings;
    TurnFrame(l, size, k);
    hide Turn;
    if Ends(l, size, k) {
      DatasWithout(l.tasks, k);
      Moved(l.ended, Datas(l.tasks), k);
    }
  }

  lemma SameMiddle(a: seq<bytes>, b: seq<bytes>, b': seq<bytes>, c: seq<bytes>)
    requires |b| == |b'|
    ensures a + b + c == a + b' + c <==> b == b'
  {
    var s, s' := a + b + c, a + b' + c;
    assert s[|a|..|a| + |b|] == b && s'[|a|..|a| + |b|] == b';
  }

  lemma HearInOrder(srv: Server, l: Link, p: Packet)
    requires Proper(srv) && Sound(l) && Heard(p) && InOrder(l) && AllLong(l, Size(srv))
    ensures InOrder(OnPacket(srv, l, p)) <==> OrderlyAll(l, Size(srv), Replies(srv, l, p))
  {
    hide Rmc.Encode;
    hide Encodings;
    hide HasBit;
    hide AnswersTo;
    hide Absorb;
    hide FragmentsIn;
    if IsFragment(p) {
      AckFrame(l, p);
      AbsorbCounts(l.inbound, FragmentOf(p));
      var l1 := AckIfNeeded(l, p).(inbound := Absorb(l.inbound, FragmentOf(p)));
      hide AckIfNeeded;
      hide Sound;
      hide Proper;
      if p.fragmentID == 0 {
        var ms := AnswersTo(srv, |l1.inbound.delivered|, l.inbound.fragBuf + p.payload);
        SayAllInOrder(l1, Size(srv), ms);
        assert InOrder(l1);
        assert OrderlyAll(l1, Size(srv), ms) == OrderlyAll(l, Size(srv), ms);
      }
      hide SayAll;
    } else {
      ControlStep(srv, l, p);
      hide OnPacket;
      hide Sound;
      hide Proper;
    }
  }

  /** Of the fair steps exactly the orderly ones keep the order. */
  lemma OrderStep(srv: Server, l: Link, a: Act)
    requires Proper(srv) && Sound(l) && Told(l, Size(srv)) && InOrder(l) && Enabled(l, a) && Fair(srv, l, a)
    ensures InOrder(Apply(srv, l, a)) <==> Orderly(srv, l, a)
  {
    SizeFits(srv);
    assert AllLong(l, Size(srv));
    hide Proper;
    hide Told;
    hide Sound;
    hide OnPacket;
    hide Say;
    hide Turn;
    hide MayBegin;
    hide OrderlyAll;
    hide Short;
    hide Encodings;
    match a
    case Speak(m) => SayInOrder(l, Size(srv), m);
    case TakeTurn(k) => TurnInOrder(l, Size(srv), k);
    case Hear(p) => HearInOrder(srv, l, p);
    case _ =>
  }

  predicate AllOrderly(srv: Server, acts: seq<Act>) {
    forall k :: 0 <= k < |acts| && Run(srv, acts[..k]).Some? && Enabled(Run(srv, acts[..k]).value, acts[k]) ==>
      Orderly(srv, Run(srv, acts[..k]).value, acts[k])
  }

  predicate AlwaysInOrder(srv: Server, acts: seq<Act>) {
    forall k :: 0 <= k <= |acts| && Run(srv, acts[..k]).Some? ==> InOrder(Run(srv, acts[..k]).value)
  }

  lemma {:induction false} InOrderSoFar(srv: Server, acts: seq<Act>, k: nat)
    requires Proper(srv) && Run(srv, acts).Some? && AllFair(srv, acts) && AllOrderly(srv, acts) && k <= |acts|
    ensures Run(srv, acts[..k]).Some? && InOrder(Run(srv, acts[..k]).value)
  {
    hide Told;
    hide Apply;
    hide Enabled;
    hide Fair;
    hide Orderly;
    hide Proper;
    hide Sound;
    if k == 0 {
      assert acts[..0] == [];
    } else {
      hide InOrder;
      InOrderSoFar(srv, acts, k - 1);
      ToldSoFar(srv, acts, k - 1);
      RunStep(srv, acts, k - 1);
      hide Run;
      OrderStep(srv, Run(srv, acts[..k - 1]).value, acts[k - 1]);
    }
  }

  /** Over any fair run the order is kept throughout if and only if every step is orderly. */
  lemma OrderExactly(srv: Server, acts: seq<Act>)
    requires Proper(srv) && Run(srv, acts).Some? && AllFair(srv, acts)
    ensures AlwaysInOrder(srv, acts) <==> AllOrderly(srv, acts)
  {
    hide Run;
    hide Told;
    hide Fair;
    hide Orderly;
    hide Enabled;
    hide Proper;
    hide Sound;
    hide InOrder;
    if AllOrderly(srv, acts) {
      forall k | 0 <= k <= |acts| && Run(srv, acts[..k]).Some? ensures InOrder(Run(srv, acts[..k]).value) {
        InOrderSoFar(srv, acts, k);
      }
    }
    if AlwaysInOrder(srv, acts) {
      forall k | 0 <= k < |acts| && Run(srv, acts[..k]).Some? && Enabled(Run(srv, acts[..k]).value, acts[k])
        ensures Orderly(srv, Run(srv, acts[..k]).value, acts[k])
      {
        RunStep(srv, acts, k);
        ToldSoFar(srv, acts, k);
        OrderStep(srv, Run(srv, acts[..k]).value, acts[k]);
      }
    }
  }

  /** Over any fair and orderly run what a receiver is delivered are the encodings of the messages said, in the
      order given, all but those still with a goroutine; with none left they parse to exactly these messages. */
  lemma EndToEndInOrder(srv: Server, acts: seq<Act>, other: Server, to: Link, chunks: seq<bytes>)
    requires Proper(srv) && Run(srv, acts).Some? && AllFair(srv, acts) && AllOrderly(srv, acts)
    requires to.inbound.fragBuf == [] && Flatten(chunks) == EncodeAll(Run(srv, acts).value.sent)
    ensures var l := Run(srv, acts).value;
            var got := FeedAll(other, Fed([], to), chunks);
            && |l.tasks| <= |l.said|
            && got.link.inbound.delivered == to.inbound.delivered + Encodings(l.said)[..|l.said| - |l.tasks|]
            && (l.tasks == [] ==>
                  && got.link.inbound.delivered == to.inbound.delivered + Encodings(l.said)
                  && (AllCarried(l.said) ==> ParseAll(Encodings(l.said)) == Somes(l.said)))
  {
    hide Run;
    hide Proper;
    hide FeedAll;
    hide EncodeAll;
    hide Idle;
    hide Rmc.Encode;
    hide Rmc.Parse;
    hide Encodings;
    hide AllFair;
    hide AllOrderly;
    EndToEnd(srv, acts, other, to, chunks);
    InOrderSoFar(srv, acts, |acts|);
    assert acts[..|acts|] == acts;
    var l := Run(srv, acts).value;
    assert (l.ended + Datas(l.tasks))[..|l.ended|] == l.ended;
    assert l.tasks == [] ==> l.ended + Datas(l.tasks) == l.ended;
    if AllCarried(l.said) { EncodingsParse(l.said); }
  }
}
