/** The matchmaking store and seat reservations
    (nextendo-nex/matchmaking_handlers.go, matchmaking_reservations.go and
    applySessionPart of matchmaking_acnh.go), one function per mutex section.

    Clock readings, random keys, private-room codes and the iteration order of the
    gathering map are inputs of the operations.
 */
module MatchStore {
  import opened Bytes
  import opened Session

  type Pid = u64

  datatype Lobby = Lobby(
    session: MatchmakeSession, participants: seq<Pid>, hostConn: u32, code: bytes,
    reservations: map<Pid, int>)

  datatype Store = Store(
    gatherings: map<u32, Lobby>, byCode: map<bytes, u32>, nextGID: u32, ttl: int)

  const DEFAULT_TTL := 8_000_000_000

  function NewStore(): Store { Store(map[], map[], 1, DEFAULT_TTL) }

  // ---- seats --------------------------------------------------------------

  function Capacity(l: Lobby): u16 { l.session.gathering.maxParticipants }

  function Expire(l: Lobby, now: int): Lobby {
    l.(reservations := map p | p in l.reservations && now < l.reservations[p] :: l.reservations[p])
  }

  function Occupied(l: Lobby): nat { |l.participants| + |l.reservations| }

  function Release(l: Lobby, pid: Pid): Lobby { l.(reservations := l.reservations - {pid}) }

  function Hold(l: Lobby, pid: Pid, until: int): Lobby { l.(reservations := l.reservations[pid := until]) }

  /** Reserving a seat: a member needs none, a holder renews, anyone else needs a free one. */
  function Reserve(l: Lobby, pid: Pid, now: int, ttl: int): (Lobby, bool) {
    if pid in l.participants then (Release(l, pid), true)
    else
      var l1 := Expire(l, now);
      if pid in l1.reservations then (Hold(l1, pid, now + ttl), true)
      else if Capacity(l1) > 0 && Occupied(l1) >= Capacity(l1) then (l1, false)
      else (Hold(l1, pid, now + ttl), true)
  }

  /** Committing a reservation: it must still be there and unexpired. */
  function Commit(l: Lobby, pid: Pid, now: int): (Lobby, bool) {
    if pid in l.participants then (Release(l, pid), false)
    else if pid !in l.reservations || now >= l.reservations[pid] then (Release(l, pid), false)
    else (Release(l, pid).(participants := l.participants + [pid]), true)
  }

  function Counted(l: Lobby): Lobby {
    l.(session := l.session.(numParticipants := |l.participants| % 0x1_0000_0000))
  }

  /** A seat taken through reservation and commit, with a clock reading for each. */
  function Seat(l: Lobby, pid: Pid, now: int, now': int, ttl: int): (Lobby, bool) {
    var (l1, ok) := Reserve(l, pid, now, ttl);
    if ok then (Counted(Commit(l1, pid, now').0), true) else (l1, false)
  }

  // ---- creation -----------------------------------------------------------

  /** What the server draws or configures for a new session. */
  datatype Draw = Draw(sessionKey: bytes, startedTime: u64, open: bool)

  function Padded(attribs: seq<u32>): seq<u32> {
    if |attribs| >= 6 then attribs else attribs + seq(6 - |attribs|, _ => 0)
  }

  const KEY_SR: bytes := [0x40, 0x53, 0x52]
  const KEY_GIR: bytes := [0x40, 0x47, 0x49, 0x52]

  function Finalize(src: MatchmakeSession, gid: u32, owner: Pid, d: Draw): MatchmakeSession {
    var g := src.gathering.(
      id := gid, ownerPID := owner, hostPID := owner,
      maxParticipants := if src.gathering.maxParticipants == 0 then 12 else src.gathering.maxParticipants,
      state := if d.open then 1 else src.gathering.state);
    src.(gathering := g, numParticipants := 1, sessionKey := d.sessionKey, startedTime := d.startedTime,
         systemPasswordEnabled := false,
         userPasswordEnabled := src.userPasswordEnabled && !d.open,
         openParticipation := src.openParticipation || d.open,
         attribs := Padded(src.attribs),
         params := src.params[KEY_SR := VBool(true)][KEY_GIR := VInt(3)])
  }

  function Put(s: Store, gid: u32, l: Lobby): Store { s.(gatherings := s.gatherings[gid := l]) }

  function Create(s: Store, pid: Pid, conn: u32, src: MatchmakeSession, d: Draw): Store {
    var gid := s.nextGID;
    Put(s, gid, Lobby(Finalize(src, gid, pid, d), [pid], conn, [], map[])).(
      nextGID := (gid + 1) % 0x1_0000_0000)
  }

  // ---- NAT classes --------------------------------------------------------

  datatype NatClass = Unknown | Open | Moderate | Strict

  function Classify(natMap: u32, natFilter: u32): NatClass {
    if natMap == 0 && natFilter == 0 then Unknown
    else if natMap <= 1 && natFilter <= 1 then Open
    else if natMap <= 1 then Moderate
    else Strict
  }

  predicate Compatible(a: NatClass, b: NatClass) {
    || a.Unknown? || b.Unknown?
    || (!(a.Strict? && (b.Strict? || b.Moderate?)) && !(b.Strict? && (a.Strict? || a.Moderate?)))
  }

  /** What connected players reported of their NAT. */
  datatype NatReport = NatReport(natMap: u32, natFilter: u32)

  type NatMap = map<Pid, NatReport>

  function ClassOf(classes: NatMap, pid: Pid): NatClass {
    if pid in classes then Classify(classes[pid].natMap, classes[pid].natFilter) else Unknown
  }

  predicate Reaches(classes: NatMap, pid: Pid, members: seq<Pid>) {
    forall m :: m in members && m != pid ==> Compatible(ClassOf(classes, pid), ClassOf(classes, m))
  }

  // ---- auto-matchmaking ---------------------------------------------------

  predicate Candidate(l: Lobby, src: MatchmakeSession) {
    l.session.gameMode == src.gameMode && l.session.openParticipation && !l.session.userPasswordEnabled
  }

  /** The capacity test of the selection, through a u16. */
  predicate HasRoom(l: Lobby) { Occupied(l) % 0x1_0000 < Capacity(l) }

  /** Walks the gatherings in the given order, expiring the reservations of every candidate it
      weighs, and stops at the first with room whose members the caller can reach. */
  function Select(s: Store, order: seq<u32>, src: MatchmakeSession, pid: Pid,
                  classes: NatMap, now: int): (Store, Option<u32>)
    requires forall g :: g in order ==> g in s.gatherings
    decreases |order|
  {
    if order == [] then (s, None)
    else
      var gid := order[0];
      assert gid in order && forall g :: g in order[1..] ==> g in order;
      var l := s.gatherings[gid];
      if !Candidate(l, src) then Select(s, order[1..], src, pid, classes, now)
      else
        var l1 := Expire(l, now);
        var s1 := Put(s, gid, l1);
        if HasRoom(l1) && Reaches(classes, pid, l1.participants) then (s1, Some(gid))
        else Select(s1, order[1..], src, pid, classes, now)
  }

  datatype Matched = Matched(store: Store, fellBack: bool)

  /** `solo` marks a caller that always opens its own gathering. `fellBack` reports the branch for a
      seat that vanished between selection and reservation. */
  function AutoMatchmake(s: Store, pid: Pid, conn: u32, src: MatchmakeSession, d: Draw, solo: bool,
                         classes: NatMap, order: seq<u32>, now: int, now': int, now'': int): Matched
    requires forall g :: g in order ==> g in s.gatherings
  {
    if solo then
      var c := Create(s, pid, conn, src, d);
      var l := c.gatherings[s.nextGID];
      var alone := l.(session := l.session.(gathering := l.session.gathering.(minParticipants := 1)));
      Matched(Put(c, s.nextGID, alone), false)
    else
      match Select(s, order, src, pid, classes, now)
      case (s1, None) => Matched(Create(s1, pid, conn, src, d), false)
      case (s1, Some(gid)) =>
        SelectInStore(s, order, src, pid, classes, now);
        var (l, ok) := Seat(s1.gatherings[gid], pid, now', now'', s1.ttl);
        if ok then Matched(Put(s1, gid, l), false)
        else Matched(Create(Put(s1, gid, l), pid, conn, src, d), true)
  }

  lemma {:induction false} SelectInStore(s: Store, order: seq<u32>, src: MatchmakeSession, pid: Pid,
                                         classes: NatMap, now: int)
    requires forall g :: g in order ==> g in s.gatherings
    ensures var (s1, g) := Select(s, order, src, pid, classes, now);
            s1.gatherings.Keys == s.gatherings.Keys && (g.Some? ==> g.value in s1.gatherings)
    decreases |order|
  {
    if order == [] {
    } else {
      var gid := order[0];
      assert gid in order && forall g :: g in order[1..] ==> g in order;
      var l := s.gatherings[gid];
      if !Candidate(l, src) {
        SelectInStore(s, order[1..], src, pid, classes, now);
      } else {
        var s1 := Put(s, gid, Expire(l, now));
        assert s1.gatherings.Keys == s.gatherings.Keys;
        SelectInStore(s1, order[1..], src, pid, classes, now);
      }
    }
  }

  // ---- the other operations -----------------------------------------------

  function Without(ps: seq<Pid>, pid: Pid): seq<Pid> {
    if ps == [] then []
    else (if ps[0] == pid then [] else [ps[0]]) + Without(ps[1..], pid)
  }

  /** The gathering without the player; without members there is none. */
  function End(l: Lobby, pid: Pid): Option<Lobby> {
    var l1 := Release(l, pid);
    var ps := Without(l1.participants, pid);
    if ps == [] then None else Some(Counted(l1.(participants := ps)))
  }

  /** The first candidate who is a member, if any. */
  function FirstMember(candidates: seq<Pid>, members: seq<Pid>): Option<Pid> {
    if candidates == [] then None
    else if candidates[0] in members then Some(candidates[0])
    else FirstMember(candidates[1..], members)
  }

  function IndexOf(members: seq<Pid>, pid: Pid): (i: nat)
    requires pid in members
    ensures i < |members| && members[i] == pid && (forall j :: 0 <= j < i ==> members[j] != pid)
  {
    if members[0] == pid then 0 else 1 + IndexOf(members[1..], pid)
  }

  function ToFront(members: seq<Pid>, pid: Pid): seq<Pid>
    requires pid in members
  {
    var i := IndexOf(members, pid);
    members[i := members[0]][0 := pid]
  }

  function Migrate(l: Lobby, candidates: seq<Pid>): Lobby {
    match FirstMember(candidates, l.participants)
    case None => l
    case Some(c) => FirstMemberIsMember(candidates, l.participants); l.(participants := ToFront(l.participants, c))
  }

  lemma {:induction false} FirstMemberIsMember(candidates: seq<Pid>, members: seq<Pid>)
    ensures FirstMember(candidates, members).Some? ==> FirstMember(candidates, members).value in members
  {
    if candidates == [] {
    } else {
      FirstMemberIsMember(candidates[1..], members);
    }
  }

  predicate Stays(l: Lobby, pid: Pid) {
    || pid !in l.participants
    || (Without(l.participants, pid) != [] && l.session.gathering.ownerPID != pid)
  }

  function Leave(l: Lobby, pid: Pid): Lobby {
    var l1 := Release(l, pid);
    if pid !in l.participants then l1 else Counted(l1.(participants := Without(l.participants, pid)))
  }

  /** A disconnect: the player leaves every gathering; one left empty or without its owner is removed. */
  function RemovePlayer(s: Store, pid: Pid): Store {
    if pid == 0 then s
    else s.(
      gatherings := map g | g in s.gatherings && Stays(s.gatherings[g], pid) :: Leave(s.gatherings[g], pid),
      byCode := s.byCode - DroppedCodes(s, pid))
  }

  function DroppedCodes(s: Store, pid: Pid): set<bytes> {
    set g | g in s.gatherings && !Stays(s.gatherings[g], pid) && s.gatherings[g].code != [] :: s.gatherings[g].code
  }

  const FLAG_OPEN: nat := 0x2
  const FLAG_CODEWORD: nat := 0x4000

  datatype Part = Part(gid: u32, flags: u32, attributes: seq<u32>, open: bool, buffer: bytes,
                       gameMode: u32, maxParticipants: u16, codeword: bytes)

  predicate WritesCode(p: Part) { HasBit(p.flags, FLAG_CODEWORD) || p.codeword != [] }

  /** A partial session update: each field is written when its flag or a non-empty value says so. */
  function ApplyPart(l: Lobby, p: Part): Lobby {
    var g := l.session.gathering;
    var m := l.session.(
      codeword := if WritesCode(p) then p.codeword else l.session.codeword,
      attribs := if p.attributes != [] then p.attributes else l.session.attribs,
      applicationData := if p.buffer != [] then p.buffer else l.session.applicationData,
      gameMode := if p.gameMode != 0 then p.gameMode else l.session.gameMode,
      openParticipation := if HasBit(p.flags, FLAG_OPEN) then p.open else l.session.openParticipation,
      gathering := g.(maxParticipants := if p.maxParticipants != 0 then p.maxParticipants else g.maxParticipants));
    l.(session := m, code := if WritesCode(p) then p.codeword else l.code)
  }

  /** The test of the loop that grows an attribute list, made on a 32-bit length. */
  predicate Growing(len: nat, index: u32) { len % 0x1_0000_0000 <= index }

  const LAST_INDEX: u32 := 0xFFFF_FFFF

  /** How often that loop runs, for every index but the last. */
  function Growth(len: nat, index: u32): nat {
    if Growing(len, index) then index + 1 - len % 0x1_0000_0000 else 0
  }

  function Zeros(n: nat): (z: seq<u32>)
    ensures |z| == n
  {
    seq(n, _ => 0)
  }

  function SetAttribute(attribs: seq<u32>, index: u32, value: u32): seq<u32> {
    (attribs + Zeros(Growth(|attribs|, index)))[index := value]
  }

  // ---- the operations as one step -----------------------------------------

  datatype Op =
    | OpCreate(pid: Pid, conn: u32, src: MatchmakeSession, draw: Draw)
    | OpAuto(pid: Pid, conn: u32, src: MatchmakeSession, draw: Draw, solo: bool,
             classes: NatMap, order: seq<u32>, now: int, now': int, now'': int)
    | OpJoin(gid: u32, pid: Pid, now: int, now': int)
    | OpReserve(gid: u32, pid: Pid, now: int)
    | OpCancel(gid: u32, pid: Pid)
    | OpEnd(gid: u32, pid: Pid)
    | OpUnregister(gid: u32, pid: Pid)
    | OpMigrate(gid: u32, candidates: seq<Pid>)
    | OpDisconnect(pid: Pid)
    | OpPart(part: Part)
    | OpSetOpen(gid: u32, open: bool)
    | OpBuffer(gid: u32, pid: Pid, buffer: bytes)
    | OpAttribute(gid: u32, pid: Pid, index: u32, value: u32)
    | OpCode(gid: u32, code: bytes)
    | OpSetTtl(ttl: int)

  /** The one operation that never ends, and never gives the store back: its host growing a list to the
      last index. */
  predicate Stalls(s: Store, op: Op) {
    op.OpAttribute? && op.index == LAST_INDEX && op.gid in s.gatherings && Hosts(s.gatherings[op.gid], op.pid)
  }

  /** What can happen to a store: an operation that ends, an auto-match visiting every gathering once. */
  predicate Enabled(s: Store, op: Op) {
    && !Stalls(s, op)
    && (op.OpAuto? ==> (forall g :: g in op.order ==> g in s.gatherings)
                       && (forall g :: g in s.gatherings ==> g in op.order)
                       && (forall i, j :: 0 <= i < j < |op.order| ==> op.order[i] != op.order[j]))
  }

  /** The gathering an operation is about, if it names one. */
  function Target(op: Op): Option<u32> {
    match op
    case OpCreate(_, _, _, _) => None
    case OpAuto(_, _, _, _, _, _, _, _, _, _) => None
    case OpDisconnect(_) => None
    case OpSetTtl(_) => None
    case OpPart(part) => Some(part.gid)
    case _ => Some(op.gid)
  }

  predicate Hosts(l: Lobby, pid: Pid) { l.participants != [] && l.participants[0] == pid }

  /** Who may write the application buffer: the first member, or id 0 where there is none. */
  function BufferOwner(l: Lobby): Pid { if l.participants == [] then 0 else l.participants[0] }

  /** What an operation makes of the gathering it names; nothing when it removes it. */
  function Touch(l: Lobby, op: Op, ttl: int): Option<Lobby>
    requires Target(op).Some?
  {
    match op
    case OpJoin(_, pid, now, now') =>
      Some(if pid in l.participants then Counted(l) else Seat(l, pid, now, now', ttl).0)
    case OpReserve(_, pid, now) => Some(if pid == 0 then l else Reserve(l, pid, now, ttl).0)
    case OpCancel(_, pid) => Some(Release(l, pid))
    case OpEnd(_, pid) => End(l, pid)
    case OpUnregister(_, pid) => if l.session.gathering.ownerPID == pid then None else Some(l)
    case OpMigrate(_, candidates) => Some(Migrate(l, candidates))
    case OpPart(part) => Some(ApplyPart(l, part))
    case OpSetOpen(_, open) => Some(l.(session := l.session.(openParticipation := open)))
    case OpBuffer(_, pid, buffer) =>
      Some(if BufferOwner(l) == pid then l.(session := l.session.(applicationData := buffer)) else l)
    case OpAttribute(_, pid, index, value) =>
      Some(if Hosts(l, pid)
           then l.(session := l.session.(attribs := SetAttribute(l.session.attribs, index, value))) else l)
    case OpCode(_, code) => Some(l.(code := code))
  }

  function CodesAfter(s: Store, op: Op): map<bytes, u32> {
    match op
    case OpPart(p) => if p.gid in s.gatherings && p.codeword != [] then s.byCode[p.codeword := p.gid] else s.byCode
    case OpCode(gid, code) => s.byCode[code := gid]
    case _ => s.byCode
  }

  function ApplyLocal(s: Store, op: Op): Store
    requires Target(op).Some?
  {
    var gid := Target(op).value;
    var s1 := s.(byCode := CodesAfter(s, op));
    if gid !in s.gatherings then s1
    else match Touch(s.gatherings[gid], op, s.ttl)
      case None => s1.(gatherings := s.gatherings - {gid})
      case Some(l) => Put(s1, gid, l)
  }

  function Apply(s: Store, op: Op): Store
    requires Enabled(s, op)
  {
    match op
    case OpCreate(pid, conn, src, draw) => Create(s, pid, conn, src, draw)
    case OpAuto(pid, conn, src, draw, solo, classes, order, now, now', now'') =>
      AutoMatchmake(s, pid, conn, src, draw, solo, classes, order, now, now', now'').store
    case OpDisconnect(pid) => RemovePlayer(s, pid)
    case OpSetTtl(ttl) => s.(ttl := if ttl <= 0 then DEFAULT_TTL else ttl)
    case _ => ApplyLocal(s, op)
  }

  /** The store after a sequence of operations on a new store, if each was possible when applied. */
  function Run(ops: seq<Op>): Option<Store> {
    if ops == [] then Some(NewStore())
    else
      var last := ops[|ops| - 1];
      match Run(ops[..|ops| - 1])
      case None => None
      case Some(s) => if Enabled(s, last) then Some(Apply(s, last)) else None
  }
}
