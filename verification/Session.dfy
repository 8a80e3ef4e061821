/** The matchmaking structures of nextendo-nex/matchmaking.go and the structure
    framing of nextendo-nex/types.go: variants, parameter maps, Gathering,
    MatchmakeSession and AutoMatchmakeParam.

    A written form is a function of what follows it (`tail`), so a level can be
    given arbitrary further bytes inside its frame.
 */
module Session {
  import opened Bytes
  import opened Stream

  type s64 = x: int | -0x8000_0000_0000_0000 <= x < 0x8000_0000_0000_0000

  /** A tagged value. A tag outside the known six is written and read as the tag alone. */
  datatype Variant =
    | VNil | VInt(i: s64) | VDouble(bits: u64) | VBool(b: bool) | VString(s: bytes)
    | VDate(d: u64) | VUint(u: u64) | VOther(tag: u8)

  type Params = map<bytes, Variant>

  datatype Gathering = Gathering(
    id: u32, ownerPID: u64, hostPID: u64, minParticipants: u16, maxParticipants: u16,
    participationPolicy: u32, policyArgument: u32, flags: u32, state: u32, description: bytes)

  datatype MatchmakeSession = MatchmakeSession(
    gathering: Gathering,
    gameMode: u32, attribs: seq<u32>, openParticipation: bool, matchmakeSystem: u32,
    applicationData: bytes, numParticipants: u32, progressScore: u8, sessionKey: bytes,
    option: u32, params: Params, startedTime: u64, userPassword: bytes,
    referGID: u32, userPasswordEnabled: bool, systemPasswordEnabled: bool, codeword: bytes)

  // ---- variants -----------------------------------------------------------

  function Unsigned(v: s64): u64 { if v < 0 then v + 0x1_0000_0000_0000_0000 else v }
  function Signed(v: u64): s64 { if v >= 0x8000_0000_0000_0000 then v - 0x1_0000_0000_0000_0000 else v }

  function VariantOnto(v: Variant, tail: bytes): bytes {
    match v
    case VNil => [0] + tail
    case VInt(i) => [1] + (Le64(Unsigned(i)) + tail)
    case VDouble(bits) => [2] + (Le64(bits) + tail)
    case VBool(b) => [3] + (BoolBytes(b) + tail)
    case VString(s) => [4] + (StringBytes(s) + tail)
    case VDate(d) => [5] + (Le64(d) + tail)
    case VUint(u) => [6] + (Le64(u) + tail)
    case VOther(tag) => [tag] + tail
  }

  function TakeVariant(i: In): (Variant, In) {
    var (tag, j) := TakeU8(i);
    if tag == 0 then (VNil, j)
    else if tag == 1 then var (v, k) := TakeU64(j); (VInt(Signed(v)), k)
    else if tag == 2 then var (v, k) := TakeU64(j); (VDouble(v), k)
    else if tag == 3 then var (v, k) := TakeBool(j); (VBool(v), k)
    else if tag == 4 then var (v, k) := TakeString(j); (VString(v), k)
    else if tag == 5 then var (v, k) := TakeU64(j); (VDate(v), k)
    else if tag == 6 then var (v, k) := TakeU64(j); (VUint(v), k)
    else (VOther(tag), j)
  }

  predicate StringFits(b: bytes) { |b| + 1 < 0x1_0000 }

  predicate VariantFits(v: Variant) {
    (v.VString? ==> StringFits(v.s)) && (v.VOther? ==> v.tag > 6)
  }

  lemma VariantBack(v: Variant, tail: bytes)
    requires VariantFits(v)
    ensures TakeVariant(In(VariantOnto(v, tail), false)) == (v, In(tail, false))
  {
    hide TakeU8;
    hide TakeU64;
    hide TakeString;
    hide TakeBool;
    hide Le64;
    hide BoolBytes;
    hide StringBytes;
    match v
    case VNil => U8Back(0, tail);
    case VInt(i) => U8Back(1, Le64(Unsigned(i)) + tail); U64Back(Unsigned(i), tail);
    case VDouble(bits) => U8Back(2, Le64(bits) + tail); U64Back(bits, tail);
    case VBool(b) => U8Back(3, BoolBytes(b) + tail); BoolBack(b, tail);
    case VString(s) => U8Back(4, StringBytes(s) + tail); StringBack(s, tail);
    case VDate(d) => U8Back(5, Le64(d) + tail); U64Back(d, tail);
    case VUint(u) => U8Back(6, Le64(u) + tail); U64Back(u, tail);
    case VOther(tag) => U8Back(tag, tail);
  }

  // ---- parameter maps, in any order ---------------------------------------

  /** `ks` lists the keys of `m`, each once: an order in which the map may be written. */
  ghost predicate Lists(ks: seq<bytes>, m: Params) {
    && (forall k :: k in ks <==> k in m)
    && (forall i, j :: 0 <= i < j < |ks| ==> ks[i] != ks[j])
  }

  function PairsOnto(m: Params, ks: seq<bytes>, tail: bytes): bytes
    requires forall k :: k in ks ==> k in m
  {
    if ks == [] then tail
    else StringBytes(ks[0]) + VariantOnto(m[ks[0]], PairsOnto(m, ks[1..], tail))
  }

  function TakePairs(i: In, n: nat, acc: Params): (Params, In)
    decreases n
  {
    if n == 0 then (acc, i)
    else
      var (k, j) := TakeString(i);
      var (v, l) := TakeVariant(j);
      TakePairs(l, n - 1, acc[k := v])
  }

  function ParamsOnto(m: Params, ks: seq<bytes>, tail: bytes): bytes
    requires forall k :: k in ks ==> k in m
  {
    Le32(|m| % 0x1_0000_0000) + PairsOnto(m, ks, tail)
  }

  function TakeParams(i: In): (Params, In) {
    var (n, j) := TakeU32(i);
    if n > |j.rest| then (map[], j.(failed := true)) else TakePairs(j, n, map[])
  }

  predicate ParamsFit(m: Params) {
    |m| < 0x1_0000_0000 && (forall k :: k in m ==> StringFits(k) && VariantFits(m[k]))
  }

  function Restrict(m: Params, ks: seq<bytes>): Params {
    map k | k in m && k in ks :: m[k]
  }

  lemma RestrictStep(m: Params, ks: seq<bytes>, acc: Params)
    requires ks != [] && ks[0] in m
    ensures acc[ks[0] := m[ks[0]]] + Restrict(m, ks[1..]) == acc + Restrict(m, ks)
  {
    assert forall k :: k in ks <==> k == ks[0] || k in ks[1..];
  }

  lemma {:induction false} PairsBack(m: Params, ks: seq<bytes>, tail: bytes, acc: Params)
    requires ParamsFit(m) && forall k :: k in ks ==> k in m
    ensures TakePairs(In(PairsOnto(m, ks, tail), false), |ks|, acc) == (acc + Restrict(m, ks), In(tail, false))
    decreases |ks|
  {
    hide TakeString;
    hide TakeVariant;
    hide StringBytes;
    hide VariantOnto;
    if ks == [] {
      assert acc + Restrict(m, ks) == acc;
    } else {
      hide Restrict;
      var k0, more := ks[0], ks[1..];
      assert k0 in ks && forall k :: k in more ==> k in ks;
      StringBack(k0, VariantOnto(m[k0], PairsOnto(m, more, tail)));
      VariantBack(m[k0], PairsOnto(m, more, tail));
      PairsBack(m, more, tail, acc[k0 := m[k0]]);
      RestrictStep(m, ks, acc);
    }
  }

  lemma VariantLonger(v: Variant, tail: bytes)
    ensures |VariantOnto(v, tail)| >= 1 + |tail|
  {
  }

  lemma {:induction false} PairsLength(m: Params, ks: seq<bytes>, tail: bytes)
    requires forall k :: k in ks ==> k in m
    ensures |PairsOnto(m, ks, tail)| >= |ks|
  {
    hide StringBytes;
    hide VariantOnto;
    if ks == [] {
    } else {
      assert ks[0] in ks && forall k :: k in ks[1..] ==> k in ks;
      VariantLonger(m[ks[0]], PairsOnto(m, ks[1..], tail));
      PairsLength(m, ks[1..], tail);
    }
  }

  lemma {:induction false} ListingSize(ks: seq<bytes>, keys: set<bytes>)
    requires forall k :: k in ks <==> k in keys
    requires forall i, j :: 0 <= i < j < |ks| ==> ks[i] != ks[j]
    ensures |ks| == |keys|
  {
    if ks == [] {
      assert keys == {};
    } else {
      var k0, more := ks[0], ks[1..];
      assert ks == [k0] + more;
      assert k0 !in more;
      ListingSize(more, keys - {k0});
    }
  }

  lemma ListingWhole(ks: seq<bytes>, m: Params)
    requires Lists(ks, m)
    ensures |ks| == |m| && map[] + Restrict(m, ks) == m
  {
    ListingSize(ks, m.Keys);
  }

  lemma PairsBackWhole(m: Params, ks: seq<bytes>, tail: bytes)
    requires ParamsFit(m) && Lists(ks, m)
    ensures TakePairs(In(PairsOnto(m, ks, tail), false), |m|, map[]) == (m, In(tail, false))
    ensures |PairsOnto(m, ks, tail)| >= |m|
  {
    hide TakePairs;
    hide PairsOnto;
    ListingWhole(ks, m);
    PairsLength(m, ks, tail);
    PairsBack(m, ks, tail, map[]);
  }

  lemma ParamsBack(m: Params, ks: seq<bytes>, tail: bytes)
    requires ParamsFit(m) && Lists(ks, m)
    ensures TakeParams(In(ParamsOnto(m, ks, tail), false)) == (m, In(tail, false))
  {
    hide TakeU32;
    hide TakePairs;
    hide PairsOnto;
    hide Le32;
    var n: u32 := |m|;
    U32Back(n, PairsOnto(m, ks, tail));
    PairsBackWhole(m, ks, tail);
  }

  // ---- framed structure levels --------------------------------------------

  function Framed(body: bytes, tail: bytes): bytes { [0] + (BufferBytes(body) + tail) }

  function TakeFrame(i: In): (bytes, In) {
    var (_, j) := TakeU8(i);
    TakeBuffer(j)
  }

  lemma FrameBack(body: bytes, tail: bytes)
    requires |body| < 0x1_0000_0000
    ensures TakeFrame(In(Framed(body, tail), false)) == (body, In(tail, false))
  {
    hide TakeBuffer;
    hide BufferBytes;
    U8Back(0, BufferBytes(body) + tail);
    BufferBack(body, tail);
  }

  // ---- the Gathering level ------------------------------------------------

  function GatheringOnto(s: Settings, g: Gathering, tail: bytes): bytes {
    Le32(g.id) + (PidBytes(s, g.ownerPID) + (PidBytes(s, g.hostPID)
      + (Le16(g.minParticipants) + (Le16(g.maxParticipants) + (Le32(g.participationPolicy)
      + (Le32(g.policyArgument) + (Le32(g.flags) + (Le32(g.state) + (StringBytes(g.description) + tail)))))))))
  }

  function TakeGathering(s: Settings, i: In): (Gathering, In) {
    var (id, i1) := TakeU32(i);
    var (ownerPID, i2) := TakePid(s, i1);
    var (hostPID, i3) := TakePid(s, i2);
    var (minP, i4) := TakeU16(i3);
    var (maxP, i5) := TakeU16(i4);
    var (policy, i6) := TakeU32(i5);
    var (argument, i7) := TakeU32(i6);
    var (flags, i8) := TakeU32(i7);
    var (state, i9) := TakeU32(i8);
    var (description, i10) := TakeString(i9);
    (Gathering(id, ownerPID, hostPID, minP, maxP, policy, argument, flags, state, description), i10)
  }

  predicate GatheringFits(s: Settings, g: Gathering) {
    PidFits(s, g.ownerPID) && PidFits(s, g.hostPID) && StringFits(g.description)
  }

  lemma GatheringBack(s: Settings, g: Gathering, tail: bytes)
    requires GatheringFits(s, g)
    ensures TakeGathering(s, In(GatheringOnto(s, g, tail), false)) == (g, In(tail, false))
  {
    hide TakeU16;
    hide TakeU32;
    hide TakePid;
    hide TakeString;
    hide Le16;
    hide Le32;
    hide PidBytes;
    hide StringBytes;
    var t9 := StringBytes(g.description) + tail;
    var t8 := Le32(g.state) + t9;
    var t7 := Le32(g.flags) + t8;
    var t6 := Le32(g.policyArgument) + t7;
    var t5 := Le32(g.participationPolicy) + t6;
    var t4 := Le16(g.maxParticipants) + t5;
    var t3 := Le16(g.minParticipants) + t4;
    var t2 := PidBytes(s, g.hostPID) + t3;
    var t1 := PidBytes(s, g.ownerPID) + t2;
    U32Back(g.id, t1);
    PidBack(s, g.ownerPID, t2);
    PidBack(s, g.hostPID, t3);
    U16Back(g.minParticipants, t4);
    U16Back(g.maxParticipants, t5);
    U32Back(g.participationPolicy, t6);
    U32Back(g.policyArgument, t7);
    U32Back(g.flags, t8);
    U32Back(g.state, t9);
    StringBack(g.description, tail);
  }

  // ---- the MatchmakeSession level -----------------------------------------

  /** Bytes added after the known fields inside each framed level. */
  datatype Extras = Extras(gathering: bytes, session: bytes, params: bytes)

  const NO_EXTRAS := Extras([], [], [])

  function ParamLevelOnto(s: Settings, m: Params, ks: seq<bytes>, extra: bytes, tail: bytes): bytes
    requires forall k :: k in ks ==> k in m
  {
    if s.structHeader then Framed(ParamsOnto(m, ks, extra), tail) else ParamsOnto(m, ks, tail)
  }

  function TakeParamLevel(s: Settings, i: In): (Params, In) {
    if s.structHeader then
      var (body, j) := TakeFrame(i);
      (TakeParams(In(body, false)).0, j)
    else TakeParams(i)
  }

  function LevelTail(m: MatchmakeSession, tail: bytes): bytes {
    Le64(m.startedTime) + (StringBytes(m.userPassword) + (Le32(m.referGID)
      + (BoolBytes(m.userPasswordEnabled) + (BoolBytes(m.systemPasswordEnabled) + (StringBytes(m.codeword) + tail)))))
  }

  function LevelOnto(s: Settings, m: MatchmakeSession, ks: seq<bytes>, extra: bytes, tail: bytes): bytes
    requires forall k :: k in ks ==> k in m.params
  {
    Le32(m.gameMode) + (WordListBytes(m.attribs) + (BoolBytes(m.openParticipation)
      + (Le32(m.matchmakeSystem) + (BufferBytes(m.applicationData) + (Le32(m.numParticipants)
      + ([m.progressScore] + (BufferBytes(m.sessionKey) + (Le32(m.option)
      + ParamLevelOnto(s, m.params, ks, extra, LevelTail(m, tail))))))))))
  }

  datatype Head = Head(gameMode: u32, attribs: seq<u32>, open: bool, system: u32, data: bytes,
                       num: u32, score: u8, key: bytes, option: u32)
  datatype Trailer = Trailer(started: u64, password: bytes, refer: u32, user: bool, sys: bool, code: bytes)

  function TakeHead(i: In): (Head, In) {
    var (gameMode, i1) := TakeU32(i);
    var (attribs, i2) := TakeWordList(i1);
    var (open, i3) := TakeBool(i2);
    var (system, i4) := TakeU32(i3);
    var (data, i5) := TakeBuffer(i4);
    var (num, i6) := TakeU32(i5);
    var (score, i7) := TakeU8(i6);
    var (key, i8) := TakeBuffer(i7);
    var (option, i9) := TakeU32(i8);
    (Head(gameMode, attribs, open, system, data, num, score, key, option), i9)
  }

  function TakeTrailer(i: In): (Trailer, In) {
    var (started, i1) := TakeU64(i);
    var (password, i2) := TakeString(i1);
    var (refer, i3) := TakeU32(i2);
    var (user, i4) := TakeBool(i3);
    var (sys, i5) := TakeBool(i4);
    var (code, i6) := TakeString(i5);
    (Trailer(started, password, refer, user, sys, code), i6)
  }

  function Assemble(g: Gathering, h: Head, p: Params, t: Trailer): MatchmakeSession {
    MatchmakeSession(g, h.gameMode, h.attribs, h.open, h.system, h.data, h.num, h.score, h.key, h.option,
                     p, t.started, t.password, t.refer, t.user, t.sys, t.code)
  }

  function TakeLevel(s: Settings, g: Gathering, i: In): (MatchmakeSession, In) {
    var (h, j) := TakeHead(i);
    var (p, k) := TakeParamLevel(s, j);
    var (t, l) := TakeTrailer(k);
    (Assemble(g, h, p, t), l)
  }

  predicate LevelFits(m: MatchmakeSession) {
    && |m.attribs| < 0x1_0000_0000 && |m.applicationData| < 0x1_0000_0000 && |m.sessionKey| < 0x1_0000_0000
    && ParamsFit(m.params) && StringFits(m.userPassword) && StringFits(m.codeword)
  }

  lemma HeadBack(m: MatchmakeSession, tail: bytes)
    requires LevelFits(m)
    ensures TakeHead(In(Le32(m.gameMode) + (WordListBytes(m.attribs) + (BoolBytes(m.openParticipation)
              + (Le32(m.matchmakeSystem) + (BufferBytes(m.applicationData) + (Le32(m.numParticipants)
              + ([m.progressScore] + (BufferBytes(m.sessionKey) + (Le32(m.option) + tail)))))))), false))
         == (Head(m.gameMode, m.attribs, m.openParticipation, m.matchmakeSystem, m.applicationData,
                  m.numParticipants, m.progressScore, m.sessionKey, m.option), In(tail, false))
  {
    hide TakeU8;
    hide TakeU32;
    hide TakeBool;
    hide TakeWordList;
    hide TakeBuffer;
    hide Le32;
    hide BoolBytes;
    hide BufferBytes;
    hide WordListBytes;
    var t8 := Le32(m.option) + tail;
    var t7 := BufferBytes(m.sessionKey) + t8;
    var t6 := [m.progressScore] + t7;
    var t5 := Le32(m.numParticipants) + t6;
    var t4 := BufferBytes(m.applicationData) + t5;
    var t3 := Le32(m.matchmakeSystem) + t4;
    var t2 := BoolBytes(m.openParticipation) + t3;
    var t1 := WordListBytes(m.attribs) + t2;
    U32Back(m.gameMode, t1);
    WordListBack(m.attribs, t2);
    BoolBack(m.openParticipation, t3);
    U32Back(m.matchmakeSystem, t4);
    BufferBack(m.applicationData, t5);
    U32Back(m.numParticipants, t6);
    U8Back(m.progressScore, t7);
    BufferBack(m.sessionKey, t8);
    U32Back(m.option, tail);
  }

  lemma TrailerBack(m: MatchmakeSession, tail: bytes)
    requires LevelFits(m)
    ensures TakeTrailer(In(LevelTail(m, tail), false))
         == (Trailer(m.startedTime, m.userPassword, m.referGID, m.userPasswordEnabled, m.systemPasswordEnabled,
                     m.codeword), In(tail, false))
  {
    hide TakeU32;
    hide TakeU64;
    hide TakeBool;
    hide TakeString;
    hide Le32;
    hide Le64;
    hide BoolBytes;
    hide StringBytes;
    var t5 := StringBytes(m.codeword) + tail;
    var t4 := BoolBytes(m.systemPasswordEnabled) + t5;
    var t3 := BoolBytes(m.userPasswordEnabled) + t4;
    var t2 := Le32(m.referGID) + t3;
    var t1 := StringBytes(m.userPassword) + t2;
    U64Back(m.startedTime, t1);
    StringBack(m.userPassword, t2);
    U32Back(m.referGID, t3);
    BoolBack(m.userPasswordEnabled, t4);
    BoolBack(m.systemPasswordEnabled, t5);
    StringBack(m.codeword, tail);
  }

  lemma ParamLevelBack(s: Settings, m: Params, ks: seq<bytes>, extra: bytes, tail: bytes)
    requires ParamsFit(m) && Lists(ks, m)
    requires s.structHeader ==> |ParamsOnto(m, ks, extra)| < 0x1_0000_0000
    ensures TakeParamLevel(s, In(ParamLevelOnto(s, m, ks, extra, tail), false)) == (m, In(tail, false))
  {
    hide TakeFrame;
    hide TakeParams;
    hide ParamsOnto;
    hide Framed;
    if s.structHeader {
      FrameBack(ParamsOnto(m, ks, extra), tail);
      ParamsBack(m, ks, extra);
    } else {
      ParamsBack(m, ks, tail);
    }
  }

  lemma LevelBack(s: Settings, m: MatchmakeSession, ks: seq<bytes>, extra: bytes, tail: bytes)
    requires LevelFits(m) && Lists(ks, m.params)
    requires s.structHeader ==> |ParamsOnto(m.params, ks, extra)| < 0x1_0000_0000
    ensures TakeLevel(s, m.gathering, In(LevelOnto(s, m, ks, extra, tail), false)) == (m, In(tail, false))
  {
    hide TakeHead;
    hide TakeTrailer;
    hide TakeParamLevel;
    hide ParamLevelOnto;
    hide LevelTail;
    HeadBack(m, ParamLevelOnto(s, m.params, ks, extra, LevelTail(m, tail)));
    ParamLevelBack(s, m.params, ks, extra, LevelTail(m, tail));
    TrailerBack(m, tail);
  }

  // ---- whole sessions -----------------------------------------------------

  function SessionOnto(s: Settings, m: MatchmakeSession, ks: seq<bytes>, e: Extras, tail: bytes): bytes
    requires forall k :: k in ks ==> k in m.params
  {
    if s.structHeader then
      Framed(GatheringOnto(s, m.gathering, e.gathering),
             Framed(LevelOnto(s, m, ks, e.params, e.session), tail))
    else
      GatheringOnto(s, m.gathering, LevelOnto(s, m, ks, [], tail))
  }

  function TakeSession(s: Settings, i: In): (MatchmakeSession, In) {
    if s.structHeader then
      var (gb, j) := TakeFrame(i);
      var (lb, k) := TakeFrame(j);
      (TakeLevel(s, TakeGathering(s, In(gb, false)).0, In(lb, false)).0, k)
    else
      var (g, j) := TakeGathering(s, i);
      TakeLevel(s, g, j)
  }

  /** The length limits of the wire form, for one writing order and given extra bytes. */
  ghost predicate Writable(s: Settings, m: MatchmakeSession, ks: seq<bytes>, e: Extras)
    requires forall k :: k in ks ==> k in m.params
  {
    && GatheringFits(s, m.gathering) && LevelFits(m)
    && (s.structHeader ==>
          && |GatheringOnto(s, m.gathering, e.gathering)| < 0x1_0000_0000
          && |LevelOnto(s, m, ks, e.params, e.session)| < 0x1_0000_0000
          && |ParamsOnto(m.params, ks, e.params)| < 0x1_0000_0000)
  }

  /** A session decodes to itself for any order in which its parameter map was written, and the
      reader is left exactly after it; bytes added inside a framed level change neither. */
  lemma SessionBack(s: Settings, m: MatchmakeSession, ks: seq<bytes>, e: Extras, tail: bytes)
    requires Lists(ks, m.params) && Writable(s, m, ks, e)
    ensures TakeSession(s, In(SessionOnto(s, m, ks, e, tail), false)) == (m, In(tail, false))
  {
    hide TakeFrame;
    hide TakeGathering;
    hide TakeLevel;
    hide GatheringOnto;
    hide LevelOnto;
    hide ParamsOnto;
    hide Framed;
    if s.structHeader {
      var lb := LevelOnto(s, m, ks, e.params, e.session);
      var gb := GatheringOnto(s, m.gathering, e.gathering);
      FrameBack(gb, Framed(lb, tail));
      FrameBack(lb, tail);
      GatheringBack(s, m.gathering, e.gathering);
      LevelBack(s, m, ks, e.params, e.session);
    } else {
      GatheringBack(s, m.gathering, LevelOnto(s, m, ks, [], tail));
      LevelBack(s, m, ks, [], tail);
    }
  }

  // ---- AutoMatchmakeParam -------------------------------------------------

  function TakeAutoMatchmake(s: Settings, i: In): (MatchmakeSession, In) {
    if s.structHeader then
      var (body, j) := TakeFrame(i);
      (TakeSession(s, In(body, false)).0, j)
    else TakeSession(s, i)
  }

  /** The fields after the session are left unread, and the frame hides them from the reader. */
  lemma AutoMatchmakeBack(s: Settings, m: MatchmakeSession, ks: seq<bytes>, e: Extras, unread: bytes, tail: bytes)
    requires s.structHeader && Lists(ks, m.params) && Writable(s, m, ks, e)
    requires |SessionOnto(s, m, ks, e, unread)| < 0x1_0000_0000
    ensures TakeAutoMatchmake(s, In(Framed(SessionOnto(s, m, ks, e, unread), tail), false)) == (m, In(tail, false))
  {
    hide TakeFrame;
    hide TakeSession;
    hide SessionOnto;
    hide Framed;
    hide Writable;
    FrameBack(SessionOnto(s, m, ks, e, unread), tail);
    SessionBack(s, m, ks, e, unread);
  }

  /** With struct headers the only thing that makes the reader fail is an incomplete outer frame:
      an error inside the frame stays in its own stream. */
  predicate FrameComplete(b: bytes) {
    |b| >= 5 && |b| - 5 >= FromLe32(b[1..5])
  }

  lemma AutoMatchmakeFailsExactly(s: Settings, b: bytes)
    requires s.structHeader
    ensures TakeAutoMatchmake(s, In(b, false)).1.failed <==> !FrameComplete(b)
  {
    hide TakeSession;
    if |b| >= 5 { assert b[1..][..4] == b[1..5]; }
  }
}
