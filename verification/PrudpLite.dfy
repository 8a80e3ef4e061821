/** PRUDP-Lite packets and stream framing (nextendo-nex/prudp_lite.go). */
module PrudpLite {
  import opened Bytes

  const SYN: u8 := 0
  const CONNECT: u8 := 1
  const DATA: u8 := 2
  const DISCONNECT: u8 := 3
  const PING: u8 := 4

  const FLAG_ACK: nat := 0x001
  const FLAG_RELIABLE: nat := 0x002
  const FLAG_NEED_ACK: nat := 0x004
  const FLAG_HAS_SIZE: nat := 0x008
  const FLAG_MULTI_ACK: nat := 0x200

  const OPT_SUPPORT: u8 := 0
  const OPT_CONNECTION_SIG: u8 := 1
  const OPT_CONNECTION_SIG_LITE: u8 := 128

  const MAGIC: u8 := 0x80
  const HEADER: nat := 12

  datatype Packet = Packet(
    kind: u8, flags: u16,
    sourceType: u8, sourcePort: u8, destType: u8, destPort: u8,
    fragmentID: u8, packetID: u16,
    signature: bytes, connectionSig: bytes,
    minorVersion: u8, supportedFunc: u32,
    payload: bytes)

  // ---- encoding -----------------------------------------------------------

  function OptionBytes(id: u8, val: bytes): bytes { [id, |val| % 0x100] + val }

  predicate CarriesSupport(p: Packet) { p.kind == SYN || p.kind == CONNECT }
  predicate CarriesConnectionSig(p: Packet) { p.kind == SYN && HasBit(p.flags, FLAG_ACK) }
  predicate CarriesSignature(p: Packet) { p.kind == CONNECT && !HasBit(p.flags, FLAG_ACK) }

  function Support(p: Packet): u32 { p.minorVersion + p.supportedFunc % 0x100_0000 * 0x100 }

  function Options(p: Packet): bytes {
    (if CarriesSupport(p) then OptionBytes(OPT_SUPPORT, Le32(Support(p))) else [])
    + ((if CarriesConnectionSig(p) then OptionBytes(OPT_CONNECTION_SIG, p.connectionSig) else [])
       + (if CarriesSignature(p) then OptionBytes(OPT_CONNECTION_SIG_LITE, p.signature) else []))
  }

  function Header(p: Packet, optSize: nat, payloadSize: nat): (h: bytes)
    ensures |h| == HEADER
  {
    var size: u16 := payloadSize % 0x1_0000;
    var typeFlags: u16 := p.kind % 0x10 + p.flags % 0x1000 * 0x10;
    [ MAGIC, optSize % 0x100, size % 0x100, size / 0x100,
      p.sourceType % 0x10 * 0x10 + p.destType % 0x10, p.sourcePort, p.destPort, p.fragmentID,
      typeFlags % 0x100, typeFlags / 0x100, p.packetID % 0x100, p.packetID / 0x100 ]
  }

  function Encode(p: Packet): bytes {
    Header(p, |Options(p)|, |p.payload|) + (Options(p) + p.payload)
  }

  // ---- decoding -----------------------------------------------------------

  function ApplyOption(p: Packet, id: u8, val: bytes): Packet {
    if id == OPT_SUPPORT then
      if |val| == 4 then p.(minorVersion := FromLe32(val) % 0x100, supportedFunc := FromLe32(val) / 0x100) else p
    else if id == OPT_CONNECTION_SIG then p.(connectionSig := val)
    else if id == OPT_CONNECTION_SIG_LITE then p.(signature := val)
    else p
  }

  function DecodeOptions(p: Packet, data: bytes): Option<Packet>
    decreases |data|
  {
    if data == [] then Some(p)
    else if |data| < 2 || 2 + data[1] > |data| then None
    else DecodeOptions(ApplyOption(p, data[0], data[2..2 + data[1]]), data[2 + data[1]..])
  }

  function Word(b: bytes, k: nat): u16
    requires k + 1 < |b|
  {
    b[k] as int + 0x100 * (b[k + 1] as int)
  }

  function HeaderFields(b: bytes): Packet
    requires |b| >= HEADER
  {
    Packet(Word(b, 8) % 0x10, Word(b, 8) / 0x10, b[4] / 0x10, b[5], b[4] % 0x10, b[6], b[7], Word(b, 10),
           [], [], 0, 0, [])
  }

  function TotalSize(b: bytes): (n: nat)
    requires |b| >= HEADER
    ensures n >= HEADER
  {
    HEADER + b[1] + Word(b, 2)
  }

  /** The first packet of a buffer: not all there yet, malformed, or complete. */
  datatype First = Partial | Malformed | Whole(packet: Packet, size: nat)

  function DecodeFirst(b: bytes): (r: First)
    ensures r.Whole? ==> HEADER <= r.size <= |b|
  {
    if |b| < HEADER then Partial
    else if b[0] != MAGIC then Malformed
    else if |b| < TotalSize(b) then Partial
    else
      match DecodeOptions(HeaderFields(b), b[HEADER..HEADER + b[1]])
      case None => Malformed
      case Some(p) => Whole(p.(payload := b[HEADER + b[1]..TotalSize(b)]), TotalSize(b))
  }

  datatype Decoded = Decoded(packets: seq<Packet>, rest: bytes, failed: bool)

  function Decode(b: bytes): Decoded
    decreases |b|
  {
    match DecodeFirst(b)
    case Partial => Decoded([], b, false)
    case Malformed => Decoded([], b, true)
    case Whole(p, n) =>
      var d := Decode(b[n..]);
      Decoded([p] + d.packets, d.rest, d.failed)
  }

  // ---- framing does not depend on how the bytes are cut -------------------

  /** A decided first packet stays the same however much follows it. */
  lemma FirstStable(a: bytes, b: bytes)
    requires !DecodeFirst(a).Partial?
    ensures DecodeFirst(a + b) == DecodeFirst(a)
  {
    var c := a + b;
    assert forall k :: 0 <= k < HEADER ==> c[k] == a[k];
    if a[0] == MAGIC {
      assert c[HEADER..HEADER + a[1]] == a[HEADER..HEADER + a[1]];
      assert c[HEADER + a[1]..TotalSize(a)] == a[HEADER + a[1]..TotalSize(a)];
    }
  }

  /** Decoding `a` and then the remainder followed by `b` is decoding `a + b`, when that raises no error. */
  lemma {:induction false} ChunkIndependent(a: bytes, b: bytes)
    requires !Decode(a + b).failed
    ensures !Decode(a).failed && !Decode(Decode(a).rest + b).failed
    ensures Decode(a + b).packets == Decode(a).packets + Decode(Decode(a).rest + b).packets
    ensures Decode(a + b).rest == Decode(Decode(a).rest + b).rest
    decreases |a|
  {
    hide DecodeFirst;
    match DecodeFirst(a)
    case Partial =>
    case Malformed =>
      FirstStable(a, b);
    case Whole(p, n) =>
      FirstStable(a, b);
      assert (a + b)[n..] == a[n..] + b;
      ChunkIndependent(a[n..], b);
      var later := Decode(Decode(a[n..]).rest + b).packets;
      assert [p] + (Decode(a[n..]).packets + later) == ([p] + Decode(a[n..]).packets) + later;
  }

  // ---- encoded packets decode to themselves -------------------------------

  /** The packets the wire form carries: header fields in range, and nothing outside the fields sent. */
  predicate Normal(p: Packet) {
    && p.kind < 0x10 && p.flags < 0x1000 && p.sourceType < 0x10 && p.destType < 0x10
    && |p.payload| < 0x1_0000 && |Options(p)| < 0x100
    && (if CarriesSupport(p) then p.supportedFunc < 0x100_0000 else p.minorVersion == 0 && p.supportedFunc == 0)
    && (!CarriesConnectionSig(p) ==> p.connectionSig == [])
    && (!CarriesSignature(p) ==> p.signature == [])
  }

  lemma OptionBack(p: Packet, id: u8, val: bytes, tail: bytes)
    requires |val| < 0x100
    ensures DecodeOptions(p, OptionBytes(id, val) + tail) == DecodeOptions(ApplyOption(p, id, val), tail)
  {
    var data := OptionBytes(id, val) + tail;
    assert data[2..2 + |val|] == val && data[2 + |val|..] == tail;
  }

  /** What the options carry of a packet, over the fields `q` read from the header. */
  lemma OptionsBack(p: Packet, q: Packet)
    requires |Options(p)| < 0x100
    requires CarriesSupport(p) ==> p.supportedFunc < 0x100_0000
    ensures DecodeOptions(q, Options(p)) == Some(q.(
      minorVersion := if CarriesSupport(p) then p.minorVersion else q.minorVersion,
      supportedFunc := if CarriesSupport(p) then p.supportedFunc else q.supportedFunc,
      connectionSig := if CarriesConnectionSig(p) then p.connectionSig else q.connectionSig,
      signature := if CarriesSignature(p) then p.signature else q.signature))
  {
    if CarriesSupport(p) {
      Le32RoundTrip(Support(p));
      var r := ApplyOption(q, OPT_SUPPORT, Le32(Support(p)));
      assert r == q.(minorVersion := p.minorVersion, supportedFunc := p.supportedFunc);
      var sig := if CarriesConnectionSig(p) then OptionBytes(OPT_CONNECTION_SIG, p.connectionSig) else [];
      var lite := if CarriesSignature(p) then OptionBytes(OPT_CONNECTION_SIG_LITE, p.signature) else [];
      OptionBack(q, OPT_SUPPORT, Le32(Support(p)), sig + lite);
      if CarriesConnectionSig(p) {
        OptionBack(r, OPT_CONNECTION_SIG, p.connectionSig, []);
        assert sig + lite == sig + [];
      } else if CarriesSignature(p) {
        OptionBack(r, OPT_CONNECTION_SIG_LITE, p.signature, []);
        assert sig + lite == lite + [];
      } else {
        assert sig + lite == [];
      }
    } else {
      assert Options(p) == [];
    }
  }

  lemma Nibbles(hi: nat, lo: nat)
    requires lo < 0x10
    ensures (lo + hi * 0x10) % 0x10 == lo && (lo + hi * 0x10) / 0x10 == hi
  {
  }

  function Bare(p: Packet): Packet {
    p.(signature := [], connectionSig := [], minorVersion := 0, supportedFunc := 0, payload := [])
  }

  lemma Rejoined(v: u16)
    ensures v % 0x100 + 0x100 * (v / 0x100) == v
  {
  }

  lemma HeaderAt(p: Packet, o: nat, s: nat, b: bytes)
    requires o < 0x100 && s < 0x1_0000
    requires p.kind < 0x10 && p.flags < 0x1000 && p.sourceType < 0x10 && p.destType < 0x10
    requires |b| >= HEADER && b[..HEADER] == Header(p, o, s)
    ensures var typeFlags := p.kind + p.flags * 0x10;
            && b[0] == MAGIC && b[1] == o && b[2] == s % 0x100 && b[3] == s / 0x100
            && b[4] == p.sourceType * 0x10 + p.destType
            && b[5] == p.sourcePort && b[6] == p.destPort && b[7] == p.fragmentID
            && b[8] == typeFlags % 0x100 && b[9] == typeFlags / 0x100
            && b[10] == p.packetID % 0x100 && b[11] == p.packetID / 0x100
  {
    var h := b[..HEADER];
    assert forall k :: 0 <= k < HEADER ==> b[k] == h[k];
  }

  lemma HeaderBack(p: Packet, o: nat, s: nat, b: bytes)
    requires o < 0x100 && s < 0x1_0000
    requires p.kind < 0x10 && p.flags < 0x1000 && p.sourceType < 0x10 && p.destType < 0x10
    requires |b| >= HEADER && b[..HEADER] == Header(p, o, s)
    ensures b[0] == MAGIC && b[1] == o && TotalSize(b) == HEADER + o + s
    ensures HeaderFields(b) == Bare(p)
  {
    HeaderAt(p, o, s, b);
    hide Header;
    var typeFlags: u16 := p.kind + p.flags * 0x10;
    Rejoined(typeFlags);
    Rejoined(s);
    Rejoined(p.packetID);
    Nibbles(p.sourceType, p.destType);
    Nibbles(p.flags, p.kind);
  }

  lemma FirstOfParts(p: Packet, opts: bytes, q: Packet, tail: bytes)
    requires |opts| < 0x100 && |p.payload| < 0x1_0000
    requires p.kind < 0x10 && p.flags < 0x1000 && p.sourceType < 0x10 && p.destType < 0x10
    requires DecodeOptions(Bare(p), opts) == Some(q)
    ensures DecodeFirst(Header(p, |opts|, |p.payload|) + (opts + p.payload) + tail)
         == Whole(q.(payload := p.payload), HEADER + |opts| + |p.payload|)
  {
    hide Header;
    hide HeaderFields;
    hide TotalSize;
    hide DecodeOptions;
    var o, s := |opts|, |p.payload|;
    var h := Header(p, o, s);
    var b := h + (opts + p.payload) + tail;
    Slices(h, opts, p.payload, tail);
    HeaderBack(p, o, s, b);
  }

  lemma FirstOfEncoded(p: Packet, tail: bytes)
    requires Normal(p)
    ensures DecodeFirst(Encode(p) + tail) == Whole(p, |Encode(p)|)
  {
    hide DecodeFirst;
    hide DecodeOptions;
    OptionsBack(p, Bare(p));
    var q := DecodeOptions(Bare(p), Options(p)).value;
    assert q.(payload := p.payload) == p;
    FirstOfParts(p, Options(p), q, tail);
  }

  function EncodeAll(ps: seq<Packet>): bytes {
    if ps == [] then [] else Encode(ps[0]) + EncodeAll(ps[1..])
  }

  /** Encodings of normal packets followed by an incomplete packet decode to exactly those packets and that tail. */
  lemma {:induction false} DecodeEncoded(ps: seq<Packet>, tail: bytes)
    requires forall k :: 0 <= k < |ps| ==> Normal(ps[k])
    requires DecodeFirst(tail).Partial?
    ensures Decode(EncodeAll(ps) + tail) == Decoded(ps, tail, false)
  {
    hide DecodeFirst;
    hide Encode;
    hide Normal;
    if ps == [] {
      assert [] + tail == tail;
    } else {
      var b := EncodeAll(ps) + tail;
      Assoc(Encode(ps[0]), EncodeAll(ps[1..]), tail);
      FirstOfEncoded(ps[0], EncodeAll(ps[1..]) + tail);
      assert b[|Encode(ps[0])|..] == EncodeAll(ps[1..]) + tail;
      DecodeEncoded(ps[1..], tail);
      assert ps == [ps[0]] + ps[1..];
    }
  }

  /** An option list too long for its length byte, or a payload too long for its u16, shifts the packet boundary. */
  lemma OversizeMisread(p: Packet)
    requires |Options(p)| >= 0x100 || |p.payload| >= 0x1_0000
    ensures DecodeFirst(Encode(p)) != Whole(p, |Encode(p)|)
  {
    var h := Header(p, |Options(p)|, |p.payload|);
    assert Encode(p)[1] == h[1] && Encode(p)[2] == h[2] && Encode(p)[3] == h[3];
  }

  /** A packet encodes to a buffer holding it and nothing else if and only if it is `Normal`. */
  lemma PacketRoundTripExactly(p: Packet)
    ensures DecodeFirst(Encode(p)) == Whole(p, |Encode(p)|) <==> Normal(p)
  {
    assert Encode(p) + [] == Encode(p);
    if Normal(p) {
      FirstOfEncoded(p, []);
    } else if |Options(p)| >= 0x100 || |p.payload| >= 0x1_0000 {
      OversizeMisread(p);
    } else {
      var b := Encode(p);
      var o, s := |Options(p)|, |p.payload|;
      if DecodeFirst(b) == Whole(p, |b|) {
        InRange(b, p);
        Slices(Header(p, o, s), Options(p), p.payload, []);
        assert b == Header(p, o, s) + (Options(p) + p.payload) + [];
        HeaderBack(p, o, s, b);
        OptionsInRange(p, HeaderFields(b));
      }
    }
  }

  lemma InRange(b: bytes, p: Packet)
    requires DecodeFirst(b).Whole? && DecodeFirst(b).packet == p
    ensures p.kind < 0x10 && p.flags < 0x1000 && p.sourceType < 0x10 && p.destType < 0x10
  {
    var q := HeaderFields(b);
    OptionsKeepHeader(q, b[HEADER..HEADER + b[1]]);
  }

  lemma {:induction false} OptionsKeepHeader(q: Packet, data: bytes)
    ensures var r := DecodeOptions(q, data);
            r.Some? ==> r.value == q.(minorVersion := r.value.minorVersion, supportedFunc := r.value.supportedFunc,
                                      connectionSig := r.value.connectionSig, signature := r.value.signature)
    decreases |data|
  {
    if |data| >= 2 && 2 + data[1] <= |data| {
      OptionsKeepHeader(ApplyOption(q, data[0], data[2..2 + data[1]]), data[2 + data[1]..]);
    }
  }

  /** If the options of `p` decode to the option fields of `p`, those fields were within range. */
  lemma OptionsInRange(p: Packet, q: Packet)
    requires |Options(p)| < 0x100
    requires q.signature == [] && q.connectionSig == [] && q.minorVersion == 0 && q.supportedFunc == 0
    requires var r := DecodeOptions(q, Options(p));
             r.Some? && r.value.minorVersion == p.minorVersion && r.value.supportedFunc == p.supportedFunc
             && r.value.connectionSig == p.connectionSig && r.value.signature == p.signature
    ensures if CarriesSupport(p) then p.supportedFunc < 0x100_0000 else p.minorVersion == 0 && p.supportedFunc == 0
    ensures !CarriesConnectionSig(p) ==> p.connectionSig == []
    ensures !CarriesSignature(p) ==> p.signature == []
  {
    OptionsOfReduced(p);
    OptionsBack(p.(supportedFunc := p.supportedFunc % 0x100_0000), q);
  }

  lemma OptionsOfReduced(p: Packet)
    ensures Options(p.(supportedFunc := p.supportedFunc % 0x100_0000)) == Options(p)
  {
    assert Support(p.(supportedFunc := p.supportedFunc % 0x100_0000)) == Support(p);
  }

  // ---- the methods of prudp_lite.go ---------------------------------------

  method EncodeOptions(p: Packet) returns (out: bytes)
    ensures out == Options(p)
  {
    out := [];
    if p.kind == SYN || p.kind == CONNECT {
      out := out + OptionBytes(OPT_SUPPORT, Le32(Support(p)));
    }
    if p.kind == SYN && HasBit(p.flags, FLAG_ACK) {
      out := out + OptionBytes(OPT_CONNECTION_SIG, p.connectionSig);
    }
    if p.kind == CONNECT && !HasBit(p.flags, FLAG_ACK) {
      out := out + OptionBytes(OPT_CONNECTION_SIG_LITE, p.signature);
    }
  }

  method EncodePacket(p: Packet) returns (out: bytes)
    ensures out == Encode(p)
  {
    var options := EncodeOptions(p);
    out := Header(p, |options|, |p.payload|);
    out := out + options;
    out := out + p.payload;
  }

  method DecodeLiteOptions(p: Packet, data: bytes) returns (r: Option<Packet>)
    ensures r == DecodeOptions(p, data)
  {
    var i := 0;
    var q := p;
    while i < |data|
      invariant 0 <= i <= |data|
      invariant DecodeOptions(p, data) == DecodeOptions(q, data[i..])
    {
      ghost var left := data[i..];
      if i + 2 > |data| { return None; }
      var id, size := data[i], data[i + 1];
      i := i + 2;
      if i + size > |data| { return None; }
      var val := data[i..i + size];
      assert left[2..2 + size] == val && left[2 + size..] == data[i + size..];
      i := i + size;
      q := ApplyOption(q, id, val);
    }
    r := Some(q);
  }

  method DecodeNext(b: bytes) returns (r: First)
    ensures r == DecodeFirst(b)
  {
    if |b| < HEADER { return Partial; }
    if b[0] != MAGIC { return Malformed; }
    var optSize := b[1];
    var total := HEADER + optSize + Word(b, 2);
    if |b| < total { return Partial; }
    var p := DecodeLiteOptions(HeaderFields(b), b[HEADER..HEADER + optSize]);
    if p == None { return Malformed; }
    r := Whole(p.value.(payload := b[HEADER + optSize..total]), total);
  }

  method DecodePackets(b: bytes) returns (packets: seq<Packet>, rest: bytes, failed: bool)
    ensures Decoded(packets, rest, failed) == Decode(b)
  {
    hide DecodeFirst;
    packets, rest, failed := [], b, false;
    while true
      invariant !failed
      invariant Decode(b) == Decoded(packets + Decode(rest).packets, Decode(rest).rest, Decode(rest).failed)
      decreases |rest|
    {
      var first := DecodeNext(rest);
      match first {
        case Partial =>
          break;
        case Malformed =>
          failed := true;
          break;
        case Whole(p, n) =>
          assert packets + Decode(rest).packets == (packets + [p]) + Decode(rest[n..]).packets;
          packets, rest := packets + [p], rest[n..];
      }
    }
    assert packets + [] == packets;
  }
}
