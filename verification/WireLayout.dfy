/** Which bytes of the wire forms hold what: messages (nextendo-nex/rmc.go), packets (nextendo-nex/prudp_lite.go)
    and the session structures (nextendo-nex/matchmaking.go), byte by byte rather than by reading back. */
module WireLayout {
  import opened Bytes
  import opened Stream
  import opened Rmc
  import opened Session
  import P = PrudpLite

  // ---- messages -----------------------------------------------------------

  lemma Three(a: bytes, b: bytes, c: bytes)
    ensures Has(a + (b + c), 0, a) && Has(a + (b + c), |a|, b) && Has(a + (b + c), |a| + |b|, c)
  {
    First(b, c);
    Behind(a, b + c, 0, b);
    Behind(b, c, 0, c);
    Behind(a, b + c, |b|, c);
  }

  lemma Tag(x: u8, rest: bytes, at: nat, y: bytes)
    requires Has(rest, at, y)
    ensures Has([x] + rest, 0, [x]) && Has([x] + rest, at + 1, y)
  {
    Behind([x], rest, at, y);
  }

  function AnswerMethod(methodID: u32): u32 { if HasBit(methodID, 0x8000) then methodID else methodID + 0x8000 }

  function ErrorResult(result: u32): u32 { if HasBit(result, 0x8000_0000) then result else result + 0x8000_0000 }

  /** From `at` on: for a request, call id, method and body; for an answer, the success flag and then call id, method
      with the response bit and body, or the result with the error bit and the call id. Nothing follows. */
  predicate Laid(b: bytes, at: nat, m: Message) {
    match m
    case Request(_, methodID, callID, body) =>
      && |b| == at + 8 + |body|
      && Has(b, at, Le32(callID)) && Has(b, at + 4, Le32(methodID)) && Has(b, at + 8, body)
    case Success(_, methodID, callID, body) =>
      && |b| == at + 9 + |body|
      && Has(b, at, [1]) && Has(b, at + 1, Le32(callID)) && Has(b, at + 5, Le32(AnswerMethod(methodID)))
      && Has(b, at + 9, body)
    case Failure(_, callID, result) =>
      && |b| == at + 9
      && Has(b, at, [0]) && Has(b, at + 1, Le32(ErrorResult(result))) && Has(b, at + 5, Le32(callID))
  }

  lemma Shifted(front: bytes, b: bytes, at: nat, m: Message)
    requires Laid(b, at, m)
    ensures Laid(front + b, |front| + at, m)
  {
    hide HasBit;
    hide Le32;
    match m
    case Request(_, methodID, callID, body) =>
      Behind(front, b, at, Le32(callID));
      Behind(front, b, at + 4, Le32(methodID));
      Behind(front, b, at + 8, body);
    case Success(_, methodID, callID, body) =>
      Behind(front, b, at, [1]);
      Behind(front, b, at + 1, Le32(callID));
      Behind(front, b, at + 5, Le32(AnswerMethod(methodID)));
      Behind(front, b, at + 9, body);
    case Failure(_, callID, result) =>
      Behind(front, b, at, [0]);
      Behind(front, b, at + 1, Le32(ErrorResult(result)));
      Behind(front, b, at + 5, Le32(callID));
  }

  /** What follows the protocol id of a message. */
  lemma Body(m: Message) returns (rest: bytes)
    ensures Payload(m) == ProtocolBytes(m.protocol, if m.Request? then 0x80 else 0) + rest
    ensures Laid(rest, 0, m)
  {
    hide HasBit;
    hide Le32;
    hide ProtocolBytes;
    match m
    case Request(_, methodID, callID, body) =>
      rest := Le32(callID) + (Le32(methodID) + body);
      Three(Le32(callID), Le32(methodID), body);
    case Success(_, methodID, callID, body) =>
      var wire := WithResponseBit(methodID);
      var more := Le32(callID) + (Le32(wire) + body);
      rest := BoolBytes(true) + more;
      Three(Le32(callID), Le32(wire), body);
      Tag(1, more, 0, Le32(callID));
      Tag(1, more, 4, Le32(wire));
      Tag(1, more, 8, body);
    case Failure(_, callID, result) =>
      var wire := WithErrorBit(result);
      var more := Le32(wire) + (Le32(callID) + []);
      rest := BoolBytes(false) + more;
      Three(Le32(wire), Le32(callID), []);
      Tag(0, more, 0, Le32(wire));
      Tag(0, more, 4, Le32(callID));
  }

  /** The encoding of a message, byte by byte: its length, its protocol id with the request flag, its fields. */
  lemma MessageLayout(m: Message)
    requires |Payload(m)| < 0x1_0000_0000
    ensures var e := Encode(m);
            && |e| >= 4 && Has(e, 0, Le32(|e| - 4))
            && (m.protocol < 0x80 ==> Has(e, 4, [m.protocol + if m.Request? then 0x80 else 0]) && Laid(e, 5, m))
            && (m.protocol >= 0x80 ==>
                  && Has(e, 4, [if m.Request? then 0xFF else 0x7F]) && Has(e, 5, Le16(m.protocol))
                  && Laid(e, 7, m))
  {
    hide Le32;
    hide Le16;
    hide Payload;
    hide Laid;
    var rest := Body(m);
    var n, p := Le32(|Payload(m)|), ProtocolBytes(m.protocol, if m.Request? then 0x80 else 0);
    First(n, p + rest);
    First(p, rest);
    Behind(n, p + rest, 0, p);
    Shifted(p, rest, 0, m);
    Shifted(n, p + rest, |p|, m);
    var e := Encode(m);
    assert e == n + (p + rest);
    if m.protocol >= 0x80 {
      assert e[4..5] == e[4..7][..1] && e[5..7] == e[4..7][1..];
    }
  }

  // ---- packets ------------------------------------------------------------

  /** What both sides support, as a SYN or CONNECT carries it: the minor version and 24 function bits. */
  function SupportForm(p: P.Packet): bytes
    requires p.supportedFunc < 0x100_0000
  {
    [0, 4, p.minorVersion, p.supportedFunc % 0x100, p.supportedFunc / 0x100 % 0x100, p.supportedFunc / 0x1_0000]
  }

  /** The options by packet type: none but for SYN and CONNECT; a SYN's answer brings the connection signature, a
      CONNECT that is no answer the packet signature. */
  function OptionsForm(p: P.Packet): bytes
    requires p.supportedFunc < 0x100_0000
  {
    if p.kind == 0 && p.flags % 2 == 1 then SupportForm(p) + [1, |p.connectionSig| % 0x100] + p.connectionSig
    else if p.kind == 0 then SupportForm(p)
    else if p.kind == 1 && p.flags % 2 == 0 then SupportForm(p) + [128, |p.signature| % 0x100] + p.signature
    else if p.kind == 1 then SupportForm(p)
    else []
  }

  lemma Halves(minor: nat, f: nat)
    requires minor < 0x100 && f < 0x100_0000
    ensures var v := minor + f * 0x100;
            v % 0x1_0000 == minor + f % 0x100 * 0x100 && v / 0x1_0000 == f / 0x100
  {
    var lo, hi := f % 0x100, f / 0x100;
    assert f * 0x100 == lo * 0x100 + hi * 0x1_0000;
  }

  lemma Quarters(lo: nat, hi: nat)
    requires lo < 0x100 && hi < 0x100
    ensures (lo + hi * 0x100) % 0x100 == lo && (lo + hi * 0x100) / 0x100 == hi
  {
  }

  lemma SupportBytes(p: P.Packet)
    requires p.supportedFunc < 0x100_0000
    ensures P.OptionBytes(0, Le32(P.Support(p))) == SupportForm(p)
  {
    var f := p.supportedFunc;
    Halves(p.minorVersion, f);
    Quarters(p.minorVersion, f % 0x100);
    assert f / 0x100 / 0x100 == f / 0x1_0000;
    var v := P.Support(p);
    assert v == p.minorVersion + f * 0x100;
    assert Le16(v % 0x1_0000) == [p.minorVersion, f % 0x100];
    assert Le16(v / 0x1_0000) == [f / 0x100 % 0x100, f / 0x1_0000];
    hide Le16;
    hide P.Support;
  }

  lemma OptionsLayout(p: P.Packet)
    requires p.supportedFunc < 0x100_0000
    ensures P.Options(p) == OptionsForm(p)
  {
    SupportBytes(p);
    hide SupportForm;
    hide Le32;
  }

  lemma TypeAndFlags(kind: nat, flags: nat)
    requires kind < 0x10 && flags < 0x1000
    ensures (kind + flags * 0x10) % 0x100 == kind + flags % 0x10 * 0x10
    ensures (kind + flags * 0x10) / 0x100 == flags / 0x10
  {
  }

  /** The twelve bytes before options and payload. */
  function HeaderForm(p: P.Packet, options: u8, payload: u16): bytes
    requires p.kind < 0x10 && p.flags < 0x1000 && p.sourceType < 0x10 && p.destType < 0x10
  {
    [0x80, options, payload % 0x100, payload / 0x100,
     p.sourceType * 0x10 + p.destType, p.sourcePort, p.destPort, p.fragmentID,
     p.kind + p.flags % 0x10 * 0x10, p.flags / 0x10, p.packetID % 0x100, p.packetID / 0x100]
  }

  lemma HeaderLayout(p: P.Packet, options: u8, payload: u16)
    requires p.kind < 0x10 && p.flags < 0x1000 && p.sourceType < 0x10 && p.destType < 0x10
    ensures P.Header(p, options, payload) == HeaderForm(p, options, payload)
  {
    hide P.Header;
    var h := P.Header(p, options, payload);
    assert h[..12] == h;
    P.HeaderAt(p, options, payload, h);
    TypeAndFlags(p.kind, p.flags);
    var f := HeaderForm(p, options, payload);
    assert f[8] == h[8] && f[9] == h[9];
    assert forall k :: 0 <= k < 12 ==> h[k] == f[k];
  }

  /** The encoding of a normal packet, byte by byte: header, the options its type has, the payload. */
  lemma PacketLayout(p: P.Packet)
    requires P.Normal(p)
    ensures |OptionsForm(p)| < 0x100
    ensures P.Encode(p) == HeaderForm(p, |OptionsForm(p)|, |p.payload|) + OptionsForm(p) + p.payload
  {
    FuncsBounded(p);
    OptionsLayout(p);
    hide OptionsForm;
    hide P.Options;
    var header := HeaderForm(p, |OptionsForm(p)|, |p.payload|);
    HeaderLayout(p, |OptionsForm(p)|, |p.payload|);
    hide P.Normal;
    hide P.Header;
    hide HeaderForm;
    Assoc(header, OptionsForm(p), p.payload);
  }

  lemma FuncsBounded(p: P.Packet)
    requires P.Normal(p)
    ensures p.supportedFunc < 0x100_0000
  {
  }

  // ---- structures ---------------------------------------------------------

  function PidForm(s: Settings, pid: u64): bytes {
    if s.pidSize == 8 then Le64(pid) else Le32(pid % 0x1_0000_0000)
  }

  function TextForm(t: bytes): bytes { Le16((|t| + 1) % 0x1_0000) + t + [0] }

  function BlobForm(b: bytes): bytes { Le32(|b| % 0x1_0000_0000) + b }

  function FlagForm(v: bool): bytes { if v then [1] else [0] }

  function ListForm(ws: seq<u32>): bytes { Le32(|ws| % 0x1_0000_0000) + Flatten(Words(ws)) }

  function Words(ws: seq<u32>): seq<bytes> { seq(|ws|, k requires 0 <= k < |ws| => Le32(ws[k])) }

  lemma {:induction false} WordsFlat(ws: seq<u32>)
    ensures WordsBytes(ws) == Flatten(Words(ws))
    decreases |ws|
  {
    hide Le32;
    if ws == [] {
    } else {
      WordsFlat(ws[1..]);
      assert Words(ws)[1..] == Words(ws[1..]);
    }
  }

  /** The forms the fields take. */
  lemma Forms(s: Settings, pid: u64, t: bytes, b: bytes, v: bool, ws: seq<u32>)
    ensures PidBytes(s, pid) == PidForm(s, pid) && StringBytes(t) == TextForm(t) && BufferBytes(b) == BlobForm(b)
    ensures BoolBytes(v) == FlagForm(v) && WordListBytes(ws) == ListForm(ws)
  {
    hide Le16;
    hide Le32;
    hide Le64;
    WordsFlat(ws);
    Assoc(Le16((|t| + 1) % 0x1_0000), t, [0]);
  }

  /** The fields of a gathering, in the order of the wire. */
  function GatheringFields(s: Settings, g: Gathering): seq<bytes> {
    [Le32(g.id), PidForm(s, g.ownerPID), PidForm(s, g.hostPID), Le16(g.minParticipants), Le16(g.maxParticipants),
     Le32(g.participationPolicy), Le32(g.policyArgument), Le32(g.flags), Le32(g.state), TextForm(g.description)]
  }

  /** The fields of a session up to its parameters, and those behind them. */
  function HeadFields(m: MatchmakeSession): seq<bytes> {
    [Le32(m.gameMode), ListForm(m.attribs), FlagForm(m.openParticipation), Le32(m.matchmakeSystem),
     BlobForm(m.applicationData), Le32(m.numParticipants), [m.progressScore], BlobForm(m.sessionKey), Le32(m.option)]
  }

  function TrailerFields(m: MatchmakeSession): seq<bytes> {
    [Le64(m.startedTime), TextForm(m.userPassword), Le32(m.referGID), FlagForm(m.userPasswordEnabled),
     FlagForm(m.systemPasswordEnabled), TextForm(m.codeword)]
  }

  /** Laying fields in front of a tail, one by one from the right. */
  function Onto(fields: seq<bytes>, tail: bytes): bytes {
    if fields == [] then tail else fields[0] + Onto(fields[1..], tail)
  }

  lemma {:induction false} OntoFlat(fields: seq<bytes>, tail: bytes)
    ensures Onto(fields, tail) == Flatten(fields) + tail
    decreases |fields|
  {
    if fields == [] {
    } else {
      OntoFlat(fields[1..], tail);
      Assoc(fields[0], Flatten(fields[1..]), tail);
    }
  }

  lemma Onto5(a: bytes, b: bytes, c: bytes, d: bytes, e: bytes, more: seq<bytes>, tail: bytes)
    ensures Onto([a, b, c, d, e] + more, tail) == a + (b + (c + (d + (e + Onto(more, tail)))))
  {
    var f := [a, b, c, d, e] + more;
    assert f[1..] == [b, c, d, e] + more;
    assert f[1..][1..] == [c, d, e] + more;
    assert f[1..][1..][1..] == [d, e] + more;
    assert f[1..][1..][1..][1..] == [e] + more;
    assert f[1..][1..][1..][1..][1..] == more;
    assert Onto(f, tail) == a + Onto(f[1..], tail);
    assert Onto(f[1..], tail) == b + Onto(f[1..][1..], tail);
    assert Onto(f[1..][1..], tail) == c + Onto(f[1..][1..][1..], tail);
    assert Onto(f[1..][1..][1..], tail) == d + Onto(f[1..][1..][1..][1..], tail);
  }

  lemma Onto4(a: bytes, b: bytes, c: bytes, d: bytes, tail: bytes)
    ensures Onto([a, b, c, d], tail) == a + (b + (c + (d + tail)))
  {
    var f3: seq<bytes>, f2: seq<bytes>, f1: seq<bytes> := [b, c, d], [c, d], [d];
    assert [a, b, c, d][1..] == f3 && f3[1..] == f2 && f2[1..] == f1;
    assert Onto(f1, tail) == d + tail;
    assert Onto(f2, tail) == c + Onto(f1, tail);
  }

  /** A gathering's bytes are exactly its fields, in this order; so each starts where those before it end. */
  lemma GatheringLayout(s: Settings, g: Gathering, tail: bytes)
    ensures GatheringOnto(s, g, tail) == Flatten(GatheringFields(s, g)) + tail
    ensures forall k :: 0 <= k < 10 ==>
              Has(Flatten(GatheringFields(s, g)), |Flatten(GatheringFields(s, g)[..k])|, GatheringFields(s, g)[k])
  {
    hide Le16;
    hide Le32;
    Forms(s, g.ownerPID, g.description, [], true, []);
    Forms(s, g.hostPID, [], [], true, []);
    hide PidForm;
    hide TextForm;
    hide PidBytes;
    hide StringBytes;
    var f := GatheringFields(s, g);
    var last := [Le32(g.participationPolicy), Le32(g.policyArgument), Le32(g.flags), Le32(g.state),
                 TextForm(g.description)];
    OntoFlat(f, tail);
    Onto5(f[0], f[1], f[2], f[3], f[4], last, tail);
    Onto5(f[5], f[6], f[7], f[8], f[9], [], tail);
    assert last + [] == last;
    assert f == [f[0], f[1], f[2], f[3], f[4]] + last;
    forall k | 0 <= k < 10 ensures Has(Flatten(f), |Flatten(f[..k])|, f[k]) { PartAt(f, k); }
  }

  lemma TrailerLayout(m: MatchmakeSession, tail: bytes)
    ensures LevelTail(m, tail) == Flatten(TrailerFields(m)) + tail
  {
    hide Le32;
    hide Le64;
    Forms(Settings(true, 8), 0, m.userPassword, [], m.userPasswordEnabled, []);
    Forms(Settings(true, 8), 0, m.codeword, [], m.systemPasswordEnabled, []);
    hide TextForm;
    hide FlagForm;
    hide StringBytes;
    hide BoolBytes;
    var f := TrailerFields(m);
    OntoFlat(f, tail);
    Onto5(f[0], f[1], f[2], f[3], f[4], [f[5]], tail);
    assert f == [f[0], f[1], f[2], f[3], f[4]] + [f[5]];
    assert Onto([f[5]], tail) == f[5] + tail;
  }

  /** A session's bytes are exactly its fields, in this order, with the parameters between option and start. */
  lemma SessionLayout(s: Settings, m: MatchmakeSession, ks: seq<bytes>, extra: bytes, tail: bytes)
    requires forall k :: k in ks ==> k in m.params
    ensures LevelOnto(s, m, ks, extra, tail)
         == Flatten(HeadFields(m)) + ParamLevelOnto(s, m.params, ks, extra, Flatten(TrailerFields(m)) + tail)
  {
    hide Le32;
    Forms(Settings(true, 8), 0, [], m.applicationData, m.openParticipation, m.attribs);
    Forms(Settings(true, 8), 0, [], m.sessionKey, true, []);
    hide BlobForm;
    hide FlagForm;
    hide ListForm;
    hide BufferBytes;
    hide BoolBytes;
    hide WordListBytes;
    TrailerLayout(m, tail);
    hide TrailerFields;
    hide ParamLevelOnto;
    hide LevelTail;
    var p := ParamLevelOnto(s, m.params, ks, extra, LevelTail(m, tail));
    var f := HeadFields(m);
    OntoFlat(f, p);
    Onto5(f[0], f[1], f[2], f[3], f[4], [f[5], f[6], f[7], f[8]], p);
    Onto4(f[5], f[6], f[7], f[8], p);
    assert f == [f[0], f[1], f[2], f[3], f[4]] + [f[5], f[6], f[7], f[8]];
  }
}
