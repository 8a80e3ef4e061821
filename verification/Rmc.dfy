/** RMC messages: the wire form of nextendo-nex/rmc.go and the exact set of
    messages it carries faithfully.
 */
module Rmc {
  import opened Bytes
  import opened Stream

  datatype Message =
    | Request(protocol: u16, methodID: u32, callID: u32, body: bytes)
    | Success(protocol: u16, methodID: u32, callID: u32, body: bytes)
    | Failure(protocol: u16, callID: u32, result: u32)

  const ESCAPE: u8 := 0x7F
  const RESPONSE_BIT: u32 := 0x8000
  const ERROR_BIT: u32 := 0x8000_0000

  function WithResponseBit(m: u32): u32 {
    if HasBit(m, RESPONSE_BIT) then m else m + RESPONSE_BIT
  }

  function WithoutResponseBit(m: u32): u32 {
    if HasBit(m, RESPONSE_BIT) then m - RESPONSE_BIT else m
  }

  function WithErrorBit(r: u32): u32 {
    if HasBit(r, ERROR_BIT) then r else r + ERROR_BIT
  }

  // ---- wire form ----------------------------------------------------------

  /** The protocol byte, or the escape byte and a u16 when the id does not fit seven bits. */
  function ProtocolBytes(protocol: u16, flag: u8): bytes
    requires flag == 0 || flag == 0x80
  {
    if protocol < 0x80 then [protocol + flag] else [ESCAPE + flag] + Le16(protocol)
  }

  function Payload(m: Message): bytes {
    match m
    case Request(p, methodID, callID, body) =>
      ProtocolBytes(p, 0x80) + (Le32(callID) + (Le32(methodID) + body))
    case Success(p, methodID, callID, body) =>
      ProtocolBytes(p, 0) + (BoolBytes(true) + (Le32(callID) + (Le32(WithResponseBit(methodID)) + body)))
    case Failure(p, callID, result) =>
      ProtocolBytes(p, 0) + (BoolBytes(false) + (Le32(WithErrorBit(result)) + (Le32(callID) + [])))
  }

  function Encode(m: Message): bytes {
    Le32(|Payload(m)| % 0x1_0000_0000) + Payload(m)
  }

  function TakeProtocol(i: In): ((u8, u16), In) {
    var (proto, j) := TakeU8(i);
    if proto % 0x80 == ESCAPE then
      var (wide, k) := TakeU16(j);
      ((proto, wide), k)
    else
      ((proto, proto % 0x80), j)
  }

  function TakeRest(proto: u8, protocol: u16, i: In): (Message, In) {
    if HasBit(proto, 0x80) then
      var (callID, j) := TakeU32(i);
      var (methodID, k) := TakeU32(j);
      var (body, l) := TakeAll(k);
      (Request(protocol, methodID, callID, body), l)
    else
      var (ok, j) := TakeBool(i);
      var (first, k) := TakeU32(j);
      var (second, l) := TakeU32(k);
      if ok then
        var (body, n) := TakeAll(l);
        (Success(protocol, WithoutResponseBit(second), first, body), n)
      else
        (Failure(protocol, second, first), l)
  }

  function ParsePayload(i: In): Option<Message> {
    var ((proto, protocol), j) := TakeProtocol(i);
    var (m, k) := TakeRest(proto, protocol, j);
    if k.failed then None else Some(m)
  }

  /** The message in `data`, or nothing when the length prefix disagrees or the data runs out. */
  function Parse(data: bytes): Option<Message> {
    var (length, i) := TakeU32(In(data, false));
    if length != |data| - 4 then None else ParsePayload(i)
  }

  // ---- what survives the wire ---------------------------------------------

  /** The messages the wire form can carry: a caller can test all four before sending. */
  predicate Carried(m: Message) {
    && m.protocol != ESCAPE
    && |Payload(m)| < 0x1_0000_0000
    && (m.Success? ==> !HasBit(m.methodID, RESPONSE_BIT))
    && (m.Failure? ==> HasBit(m.result, ERROR_BIT))
  }

  /** What the receiver sees of a message whose protocol id is not the escape byte. */
  function Received(m: Message): Message {
    match m
    case Request(_, _, _, _) => m
    case Success(_, methodID, _, _) => m.(methodID := WithoutResponseBit(methodID))
    case Failure(_, _, result) => m.(result := WithErrorBit(result))
  }

  lemma ResponseBitBack(m: u32)
    ensures WithoutResponseBit(WithResponseBit(m)) == WithoutResponseBit(m)
  {
  }

  lemma TakeAllWhole(b: bytes)
    ensures TakeAll(In(b, false)) == (b, In([], false))
  {
    assert b[..|b|] == b && b[|b|..] == [];
  }

  lemma ProtocolBack(p: u16, flag: u8, tail: bytes)
    requires flag == 0 || flag == 0x80
    requires p != ESCAPE
    ensures TakeProtocol(In(ProtocolBytes(p, flag) + tail, false))
         == ((if p < 0x80 then p + flag else ESCAPE + flag, p), In(tail, false))
  {
    if p < 0x80 {
      U8Back(p + flag, tail);
    } else {
      Assoc([ESCAPE + flag], Le16(p), tail);
      U8Back(ESCAPE + flag, Le16(p) + tail);
      U16Back(p, tail);
    }
  }

  lemma RestBack(m: Message, proto: u8) returns (tail: bytes)
    requires HasBit(proto, 0x80) <==> m.Request?
    ensures Payload(m) == ProtocolBytes(m.protocol, if m.Request? then 0x80 else 0) + tail
    ensures TakeRest(proto, m.protocol, In(tail, false)) == (Received(m), In([], false))
  {
    match m
    case Request(p, methodID, callID, body) =>
      U32Back(callID, Le32(methodID) + body);
      U32Back(methodID, body);
      TakeAllWhole(body);
      tail := Le32(callID) + (Le32(methodID) + body);
    case Success(p, methodID, callID, body) =>
      var wire := WithResponseBit(methodID);
      tail := BoolBytes(true) + (Le32(callID) + (Le32(wire) + body));
      BoolBack(true, Le32(callID) + (Le32(wire) + body));
      U32Back(callID, Le32(wire) + body);
      U32Back(wire, body);
      TakeAllWhole(body);
      ResponseBitBack(methodID);
    case Failure(p, callID, result) =>
      var wire := WithErrorBit(result);
      tail := BoolBytes(false) + (Le32(wire) + (Le32(callID) + []));
      BoolBack(false, Le32(wire) + (Le32(callID) + []));
      U32Back(wire, Le32(callID) + []);
      U32Back(callID, []);
  }

  lemma PrefixBack(payload: bytes)
    ensures Parse(Le32(|payload| % 0x1_0000_0000) + payload)
         == if |payload| < 0x1_0000_0000 then ParsePayload(In(payload, false)) else None
  {
    hide ParsePayload;
    U32Back(|payload| % 0x1_0000_0000, payload);
  }

  lemma PayloadBack(m: Message)
    requires m.protocol != ESCAPE
    ensures ParsePayload(In(Payload(m), false)) == Some(Received(m))
  {
    var p := m.protocol;
    var flag: u8 := if m.Request? then 0x80 else 0;
    var proto: u8 := if p < 0x80 then p + flag else ESCAPE + flag;
    var tail := RestBack(m, proto);
    ProtocolBack(p, flag, tail);
  }

  lemma EscapedRequest(tail: bytes)
    requires |tail| >= 2
    ensures var r := ParsePayload(In([0xFF] + tail, false));
            r == None || (r.value.Request? && |r.value.body| == |tail| - 10)
  {
    U8Back(0xFF, tail);
    assert TakeProtocol(In([0xFF] + tail, false)) == ((0xFF, FromLe16(tail[..2])), In(tail[2..], false));
  }

  lemma EscapedResponse(tail: bytes)
    requires |tail| >= 2
    ensures var r := ParsePayload(In([ESCAPE] + tail, false));
            r == None || r.value.protocol % 0x100 == tail[0]
  {
    U8Back(ESCAPE, tail);
    assert TakeProtocol(In([ESCAPE] + tail, false)) == ((ESCAPE, FromLe16(tail[..2])), In(tail[2..], false));
  }

  /** A message under the escape id loses two bytes to the wide protocol field. */
  lemma EscapeMisread(m: Message)
    requires m.protocol == ESCAPE
    ensures ParsePayload(In(Payload(m), false)) != Some(m)
  {
    match m
    case Request(_, methodID, callID, body) =>
      EscapedRequest(Le32(callID) + (Le32(methodID) + body));
    case Success(_, methodID, callID, body) =>
      EscapedResponse(BoolBytes(true) + (Le32(callID) + (Le32(WithResponseBit(methodID)) + body)));
    case Failure(_, callID, result) =>
      EscapedResponse(BoolBytes(false) + (Le32(WithErrorBit(result)) + (Le32(callID) + [])));
  }

  /** The codec round trip, exactly: a message is parsed back to itself if and only if it is `Carried`. */
  lemma RoundTripExactly(m: Message)
    ensures Parse(Encode(m)) == Some(m) <==> Carried(m)
  {
    PrefixBack(Payload(m));
    if m.protocol == ESCAPE { EscapeMisread(m); } else { PayloadBack(m); }
  }

  // ---- the methods of rmc.go ----------------------------------------------

  method EncodeMessage(s: Settings, m: Message) returns (out: bytes)
    ensures out == Encode(m)
  {
    var w := new StreamOut(s);
    var flag: u8 := if m.Request? then 0x80 else 0;
    if m.protocol < 0x80 {
      w.U8(m.protocol + flag);
    } else {
      w.U8(ESCAPE + flag);
      w.U16(m.protocol);
    }
    ghost var head := w.buf;
    assert head == ProtocolBytes(m.protocol, flag);
    match m {
      case Request(_, methodID, callID, body) =>
        w.U32(callID);
        w.U32(methodID);
        w.Write(body);
        Nest3(head, Le32(callID), Le32(methodID), body);
      case Failure(_, callID, result) =>
        w.Bool(false);
        w.U32(WithErrorBit(result));
        w.U32(callID);
        Nest4(head, BoolBytes(false), Le32(WithErrorBit(result)), Le32(callID), []);
      case Success(_, methodID, callID, body) =>
        w.Bool(true);
        w.U32(callID);
        w.U32(WithResponseBit(methodID));
        w.Write(body);
        Nest4(head, BoolBytes(true), Le32(callID), Le32(WithResponseBit(methodID)), body);
    }
    var payload := w.buf;
    assert payload == Payload(m);
    out := Le32(|payload| % 0x1_0000_0000) + payload;
  }

  method ParseMessage(s: Settings, data: bytes) returns (r: Option<Message>)
    ensures r == Parse(data)
  {
    var i := new StreamIn(data, s);
    var length := i.U32();
    if length != |data| - 4 { return None; }
    var proto := i.U8();
    var protocol: u16 := proto % 0x80;
    if protocol == ESCAPE { protocol := i.U16(); }
    var m: Message;
    if HasBit(proto, 0x80) {
      var callID := i.U32();
      var methodID := i.U32();
      var body := i.ReadAll();
      m := Request(protocol, methodID, callID, body);
    } else {
      var ok := i.Bool();
      if ok {
        var callID := i.U32();
        var methodID := i.U32();
        var body := i.ReadAll();
        m := Success(protocol, WithoutResponseBit(methodID), callID, body);
      } else {
        var result := i.U32();
        var callID := i.U32();
        m := Failure(protocol, callID, result);
      }
    }
    r := if i.failed then None else Some(m);
  }
}
