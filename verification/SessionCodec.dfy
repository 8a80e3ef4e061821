/** Saving and loading the matchmaking structures through the mutable streams. */
module SessionCodec {
  import opened Bytes
  import opened Stream
  import opened Session

  // ---- loading ------------------------------------------------------------

  method LoadVariant(i: StreamIn) returns (v: Variant)
    requires i.Valid()
    modifies i
    ensures i.Valid() && (v, i.View()) == TakeVariant(old(i.View()))
  {
    hide TakeU8;
    hide TakeU64;
    hide TakeBool;
    hide TakeString;
    var tag := i.U8();
    if tag == 0 { v := VNil; }
    else if tag == 1 { var x := i.U64(); v := VInt(Signed(x)); }
    else if tag == 2 { var x := i.U64(); v := VDouble(x); }
    else if tag == 3 { var x := i.Bool(); v := VBool(x); }
    else if tag == 4 { var x := i.String(); v := VString(x); }
    else if tag == 5 { var x := i.U64(); v := VDate(x); }
    else if tag == 6 { var x := i.U64(); v := VUint(x); }
    else { v := VOther(tag); }
  }

  method LoadParams(i: StreamIn) returns (m: Params)
    requires i.Valid()
    modifies i
    ensures i.Valid() && (m, i.View()) == TakeParams(old(i.View()))
  {
    hide TakeU32;
    hide TakeString;
    hide TakeVariant;
    var n := i.U32();
    var left := i.Remaining();
    if n > left {
      i.failed := true;
      return map[];
    }
    m := map[];
    ghost var start := i.View();
    for c := 0 to n
      invariant i.Valid()
      invariant TakePairs(i.View(), n - c, m) == TakePairs(start, n, map[])
    {
      var k := i.String();
      var v := LoadVariant(i);
      m := m[k := v];
    }
  }

  method LoadGathering(i: StreamIn) returns (g: Gathering)
    requires i.Valid()
    modifies i
    ensures i.Valid() && (g, i.View()) == TakeGathering(i.settings, old(i.View()))
  {
    hide TakeU16;
    hide TakeU32;
    hide TakePid;
    hide TakeString;
    var id := i.U32();
    var owner := i.Pid();
    var host := i.Pid();
    var minP := i.U16();
    var maxP := i.U16();
    var policy := i.U32();
    var argument := i.U32();
    var flags := i.U32();
    var state := i.U32();
    var description := i.String();
    g := Gathering(id, owner, host, minP, maxP, policy, argument, flags, state, description);
  }

  method LoadHead(i: StreamIn) returns (h: Head)
    requires i.Valid()
    modifies i
    ensures i.Valid() && (h, i.View()) == TakeHead(old(i.View()))
  {
    hide TakeU8;
    hide TakeU32;
    hide TakeBool;
    hide TakeWordList;
    hide TakeBuffer;
    var gameMode := i.U32();
    var attribs := i.WordList();
    var open := i.Bool();
    var system := i.U32();
    var data := i.Buffer();
    var num := i.U32();
    var score := i.U8();
    var key := i.Buffer();
    var option := i.U32();
    h := Head(gameMode, attribs, open, system, data, num, score, key, option);
  }

  method LoadTrailer(i: StreamIn) returns (t: Trailer)
    requires i.Valid()
    modifies i
    ensures i.Valid() && (t, i.View()) == TakeTrailer(old(i.View()))
  {
    hide TakeU32;
    hide TakeU64;
    hide TakeBool;
    hide TakeString;
    var started := i.U64();
    var password := i.String();
    var refer := i.U32();
    var user := i.Bool();
    var sys := i.Bool();
    var code := i.String();
    t := Trailer(started, password, refer, user, sys, code);
  }

  /** The version byte is read and ignored; the level's body gets a stream of its own. */
  method LoadFrame(i: StreamIn) returns (sub: StreamIn)
    requires i.Valid()
    modifies i
    ensures i.Valid() && fresh(sub) && sub.Valid() && sub.settings == i.settings
    ensures (sub.View().rest, i.View()) == TakeFrame(old(i.View())) && !sub.View().failed
  {
    hide TakeU8;
    hide TakeBuffer;
    var _ := i.U8();
    var b := i.Buffer();
    sub := new StreamIn(b, i.settings);
  }

  method LoadParamLevel(i: StreamIn) returns (m: Params)
    requires i.Valid()
    modifies i
    ensures i.Valid() && (m, i.View()) == TakeParamLevel(i.settings, old(i.View()))
  {
    hide TakeFrame;
    hide TakeParams;
    if i.settings.structHeader {
      var sub := LoadFrame(i);
      m := LoadParams(sub);
    } else {
      m := LoadParams(i);
    }
  }

  method LoadLevel(i: StreamIn, g: Gathering) returns (m: MatchmakeSession)
    requires i.Valid()
    modifies i
    ensures i.Valid() && (m, i.View()) == TakeLevel(i.settings, g, old(i.View()))
  {
    hide TakeHead;
    hide TakeParamLevel;
    hide TakeTrailer;
    var h := LoadHead(i);
    var p := LoadParamLevel(i);
    var t := LoadTrailer(i);
    m := Assemble(g, h, p, t);
  }

  method LoadSession(i: StreamIn) returns (m: MatchmakeSession)
    requires i.Valid()
    modifies i
    ensures i.Valid() && (m, i.View()) == TakeSession(i.settings, old(i.View()))
  {
    hide TakeFrame;
    hide TakeGathering;
    hide TakeLevel;
    if i.settings.structHeader {
      var gs := LoadFrame(i);
      var g := LoadGathering(gs);
      var ls := LoadFrame(i);
      m := LoadLevel(ls, g);
    } else {
      var g := LoadGathering(i);
      m := LoadLevel(i, g);
    }
  }

  method LoadAutoMatchmake(i: StreamIn) returns (m: MatchmakeSession)
    requires i.Valid()
    modifies i
    ensures i.Valid() && (m, i.View()) == TakeAutoMatchmake(i.settings, old(i.View()))
  {
    hide TakeFrame;
    hide TakeSession;
    if i.settings.structHeader {
      var sub := LoadFrame(i);
      m := LoadSession(sub);
    } else {
      m := LoadSession(i);
    }
  }

  // ---- saving -------------------------------------------------------------

  lemma VariantOntoSplit(v: Variant, tail: bytes)
    ensures VariantOnto(v, tail) == VariantOnto(v, []) + tail
  {
  }

  lemma {:induction false} PairsSnoc(m: Params, ks: seq<bytes>, k: bytes)
    requires k in m && forall x :: x in ks ==> x in m
    ensures PairsOnto(m, ks + [k], []) == PairsOnto(m, ks, []) + (StringBytes(k) + VariantOnto(m[k], []))
    decreases |ks|
  {
    hide StringBytes;
    hide VariantOnto;
    if ks == [] {
      assert ks + [k] == [k] && [k][1..] == [];
    } else {
      var k0, more := ks[0], ks[1..];
      assert k0 in ks && forall x :: x in more ==> x in ks;
      assert (ks + [k])[1..] == more + [k];
      PairsSnoc(m, more, k);
      VariantOntoSplit(m[k0], PairsOnto(m, more + [k], []));
      VariantOntoSplit(m[k0], PairsOnto(m, more, []));
      var a, b, c := StringBytes(k0), VariantOnto(m[k0], []), PairsOnto(m, more, []);
      var d := StringBytes(k) + VariantOnto(m[k], []);
      assert a + (b + (c + d)) == (a + (b + c)) + d;
    }
  }

  method SaveVariant(o: StreamOut, v: Variant)
    modifies o
    ensures o.buf == old(o.buf) + VariantOnto(v, [])
  {
    ghost var start := o.buf;
    match v {
      case VNil => o.U8(0);
      case VInt(i) => o.U8(1); o.U64(Unsigned(i)); Nest3(start, [1], Le64(Unsigned(i)), []);
      case VDouble(bits) => o.U8(2); o.U64(bits); Nest3(start, [2], Le64(bits), []);
      case VBool(b) => o.U8(3); o.Bool(b); Nest3(start, [3], BoolBytes(b), []);
      case VString(s) => o.U8(4); o.String(s); Nest3(start, [4], StringBytes(s), []);
      case VDate(d) => o.U8(5); o.U64(d); Nest3(start, [5], Le64(d), []);
      case VUint(u) => o.U8(6); o.U64(u); Nest3(start, [6], Le64(u), []);
      case VOther(tag) => o.U8(tag);
    }
  }

  /** The pairs are written in whatever order the map yields them. */
  method SaveParams(o: StreamOut, m: Params) returns (ghost ks: seq<bytes>)
    modifies o
    ensures Lists(ks, m) && o.buf == old(o.buf) + ParamsOnto(m, ks, [])
  {
    hide StringBytes;
    hide VariantOnto;
    hide Le32;
    o.U32(|m| % 0x1_0000_0000);
    ghost var head := o.buf;
    ks := [];
    var left := m.Keys;
    assert head + [] == head;
    while left != {}
      invariant forall k :: k in ks <==> k in m && k !in left
      invariant forall i, j :: 0 <= i < j < |ks| ==> ks[i] != ks[j]
      invariant left <= m.Keys
      invariant o.buf == head + PairsOnto(m, ks, [])
      decreases left
    {
      var k :| k in left;
      ghost var before := o.buf;
      o.String(k);
      SaveVariant(o, m[k]);
      PairsSnoc(m, ks, k);
      ghost var a, b, c := PairsOnto(m, ks, []), StringBytes(k), VariantOnto(m[k], []);
      assert ((head + a) + b) + c == head + (a + (b + c));
      ks := ks + [k];
      left := left - {k};
    }
    Assoc(old(o.buf), Le32(|m| % 0x1_0000_0000), PairsOnto(m, ks, []));
  }

  method SaveGathering(o: StreamOut, g: Gathering)
    modifies o
    ensures o.buf == old(o.buf) + GatheringOnto(o.settings, g, [])
  {
    hide Le16;
    hide Le32;
    hide PidBytes;
    hide StringBytes;
    ghost var s := o.settings;
    ghost var h0 := o.buf;
    o.U32(g.id);
    o.Pid(g.ownerPID);
    o.Pid(g.hostPID);
    ghost var h1 := o.buf;
    o.U16(g.minParticipants);
    o.U16(g.maxParticipants);
    o.U32(g.participationPolicy);
    ghost var h2 := o.buf;
    o.U32(g.policyArgument);
    o.U32(g.flags);
    o.U32(g.state);
    ghost var h3 := o.buf;
    o.String(g.description);
    ghost var t3 := StringBytes(g.description) + [];
    assert o.buf == h3 + t3;
    ghost var t2 := Le32(g.policyArgument) + (Le32(g.flags) + (Le32(g.state) + t3));
    Nest4(h2, Le32(g.policyArgument), Le32(g.flags), Le32(g.state), t3);
    ghost var t1 := Le16(g.minParticipants) + (Le16(g.maxParticipants) + (Le32(g.participationPolicy) + t2));
    Nest4(h1, Le16(g.minParticipants), Le16(g.maxParticipants), Le32(g.participationPolicy), t2);
    Nest4(h0, Le32(g.id), PidBytes(s, g.ownerPID), PidBytes(s, g.hostPID), t1);
  }

  method SaveParamLevel(o: StreamOut, m: Params) returns (ghost ks: seq<bytes>)
    modifies o
    ensures Lists(ks, m) && o.buf == old(o.buf) + ParamLevelOnto(o.settings, m, ks, [], [])
  {
    hide ParamsOnto;
    if o.settings.structHeader {
      var sub := new StreamOut(o.settings);
      ks := SaveParams(sub, m);
      assert sub.buf == ParamsOnto(m, ks, []);
      SaveFrame(o, sub.buf);
    } else {
      ks := SaveParams(o, m);
    }
  }

  method SaveFrame(o: StreamOut, body: bytes)
    modifies o
    ensures o.buf == old(o.buf) + Framed(body, [])
  {
    hide BufferBytes;
    ghost var start := o.buf;
    o.U8(0);
    o.Buffer(body);
    Nest3(start, [0], BufferBytes(body), []);
  }

  method SaveTrailer(o: StreamOut, m: MatchmakeSession)
    modifies o
    ensures o.buf == old(o.buf) + LevelTail(m, [])
  {
    hide Le32;
    hide Le64;
    hide BoolBytes;
    hide StringBytes;
    ghost var h0 := o.buf;
    o.U64(m.startedTime);
    o.String(m.userPassword);
    o.U32(m.referGID);
    ghost var h1 := o.buf;
    o.Bool(m.userPasswordEnabled);
    o.Bool(m.systemPasswordEnabled);
    o.String(m.codeword);
    ghost var t1 := BoolBytes(m.userPasswordEnabled)
                    + (BoolBytes(m.systemPasswordEnabled) + (StringBytes(m.codeword) + []));
    Nest4(h1, BoolBytes(m.userPasswordEnabled), BoolBytes(m.systemPasswordEnabled), StringBytes(m.codeword), []);
    Nest4(h0, Le64(m.startedTime), StringBytes(m.userPassword), Le32(m.referGID), t1);
  }

  lemma ParamLevelSplit(s: Settings, m: Params, ks: seq<bytes>, tail: bytes)
    requires forall k :: k in ks ==> k in m
    ensures ParamLevelOnto(s, m, ks, [], tail) == ParamLevelOnto(s, m, ks, [], []) + tail
  {
    hide BufferBytes;
    hide Le32;
    if s.structHeader {
      hide ParamsOnto;
      var b := BufferBytes(ParamsOnto(m, ks, []));
      assert b + [] == b;
      Assoc([0], b, tail);
    } else {
      PairsSplit(m, ks, tail);
      Assoc(Le32(|m| % 0x1_0000_0000), PairsOnto(m, ks, []), tail);
    }
  }

  lemma {:induction false} PairsSplit(m: Params, ks: seq<bytes>, tail: bytes)
    requires forall k :: k in ks ==> k in m
    ensures PairsOnto(m, ks, tail) == PairsOnto(m, ks, []) + tail
    decreases |ks|
  {
    hide StringBytes;
    hide VariantOnto;
    if ks == [] {
    } else {
      var k0, more := ks[0], ks[1..];
      assert k0 in ks && forall x :: x in more ==> x in ks;
      PairsSplit(m, more, tail);
      VariantOntoSplit(m[k0], PairsOnto(m, more, tail));
      VariantOntoSplit(m[k0], PairsOnto(m, more, []));
      var a, b, c := StringBytes(k0), VariantOnto(m[k0], []), PairsOnto(m, more, []);
      assert a + (b + (c + tail)) == (a + (b + c)) + tail;
    }
  }

  method SaveLevel(o: StreamOut, m: MatchmakeSession) returns (ghost ks: seq<bytes>)
    modifies o
    ensures Lists(ks, m.params) && o.buf == old(o.buf) + LevelOnto(o.settings, m, ks, [], [])
  {
    hide Le32;
    hide BoolBytes;
    hide BufferBytes;
    hide WordListBytes;
    hide ParamLevelOnto;
    hide LevelTail;
    ghost var s := o.settings;
    ghost var h0 := o.buf;
    o.U32(m.gameMode);
    o.WordList(m.attribs);
    o.Bool(m.openParticipation);
    ghost var h1 := o.buf;
    o.U32(m.matchmakeSystem);
    o.Buffer(m.applicationData);
    o.U32(m.numParticipants);
    ghost var h2 := o.buf;
    o.U8(m.progressScore);
    o.Buffer(m.sessionKey);
    o.U32(m.option);
    ghost var h3 := o.buf;
    ks := SaveParamLevel(o, m.params);
    SaveTrailer(o, m);
    ghost var t3 := ParamLevelOnto(s, m.params, ks, [], LevelTail(m, []));
    assert o.buf == h3 + t3 by {
      ParamLevelSplit(s, m.params, ks, LevelTail(m, []));
      Assoc(h3, ParamLevelOnto(s, m.params, ks, [], []), LevelTail(m, []));
    }
    ghost var t2 := [m.progressScore] + (BufferBytes(m.sessionKey) + (Le32(m.option) + t3));
    Nest4(h2, [m.progressScore], BufferBytes(m.sessionKey), Le32(m.option), t3);
    ghost var t1 := Le32(m.matchmakeSystem) + (BufferBytes(m.applicationData) + (Le32(m.numParticipants) + t2));
    Nest4(h1, Le32(m.matchmakeSystem), BufferBytes(m.applicationData), Le32(m.numParticipants), t2);
    Nest4(h0, Le32(m.gameMode), WordListBytes(m.attribs), BoolBytes(m.openParticipation), t1);
  }

  lemma GatheringSplit(s: Settings, g: Gathering, tail: bytes)
    ensures GatheringOnto(s, g, tail) == GatheringOnto(s, g, []) + tail
  {
    hide Le16;
    hide Le32;
    hide PidBytes;
    hide StringBytes;
    var (a, b, c) := (Le32(g.id), PidBytes(s, g.ownerPID), PidBytes(s, g.hostPID));
    var (d, e, f) := (Le16(g.minParticipants), Le16(g.maxParticipants), Le32(g.participationPolicy));
    var (h, i, j) := (Le32(g.policyArgument), Le32(g.flags), Le32(g.state));
    var k := StringBytes(g.description);
    Tail3(h, i, j, k + [], tail);
    Assoc(k, [], tail);
    assert [] + tail == tail;
    var t2 := h + (i + (j + (k + [])));
    Tail3(d, e, f, t2, tail);
    var t1 := d + (e + (f + t2));
    Tail3(a, b, c, t1, tail);
  }

  lemma Tail3(a: bytes, b: bytes, c: bytes, t: bytes, tail: bytes)
    ensures a + (b + (c + t)) + tail == a + (b + (c + (t + tail)))
  {
    Assoc(a, b + (c + t), tail);
    Assoc(b, c + t, tail);
    Assoc(c, t, tail);
  }

  /** What `LoadSession` reads back: the session written in some order of its parameters. */
  method SaveSession(o: StreamOut, m: MatchmakeSession) returns (ghost ks: seq<bytes>)
    modifies o
    ensures Lists(ks, m.params) && o.buf == old(o.buf) + SessionOnto(o.settings, m, ks, NO_EXTRAS, [])
  {
    hide GatheringOnto;
    hide LevelOnto;
    hide Framed;
    ghost var start := o.buf;
    ghost var gb := GatheringOnto(o.settings, m.gathering, []);
    if o.settings.structHeader {
      var g := new StreamOut(o.settings);
      SaveGathering(g, m.gathering);
      assert g.buf == gb;
      SaveFrame(o, g.buf);
      var l := new StreamOut(o.settings);
      ks := SaveLevel(l, m);
      ghost var lb := LevelOnto(o.settings, m, ks, [], []);
      assert l.buf == lb;
      SaveFrame(o, l.buf);
      FramedSplit(gb, Framed(lb, []));
      Assoc(start, Framed(gb, []), Framed(lb, []));
    } else {
      SaveGathering(o, m.gathering);
      ks := SaveLevel(o, m);
      ghost var lb := LevelOnto(o.settings, m, ks, [], []);
      GatheringSplit(o.settings, m.gathering, lb);
      Assoc(start, gb, lb);
    }
  }

  lemma FramedSplit(body: bytes, tail: bytes)
    ensures Framed(body, tail) == Framed(body, []) + tail
  {
    hide BufferBytes;
    var b := BufferBytes(body);
    assert [0] + (b + tail) == ([0] + (b + [])) + tail;
  }
}
