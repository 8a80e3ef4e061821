/** Safety of the matchmaking store over whole runs. */
module MatchRuns {
  import opened Bytes
  import opened Session
  import opened MatchStore
  import opened MatchInvariants

  // ---- one step -----------------------------------------------------------

  /** Within a step a surviving gathering's seats grow only within its capacity, and a new one fits. */
  predicate StepBounded(s: Store, s': Store) {
    forall g :: g in s'.gatherings ==>
      if g in s.gatherings then Bounded(s.gatherings[g], s'.gatherings[g])
      else Occupied(s'.gatherings[g]) <= Capacity(s'.gatherings[g])
  }

  lemma CreateStep(s: Store, pid: Pid, conn: u32, src: MatchmakeSession, d: Draw)
    requires Ok(s)
    ensures Ok(Create(s, pid, conn, src, d)) && StepBounded(s, Create(s, pid, conn, src, d))
  {
    hide LobbyOk;
    hide Occupied;
    hide Capacity;
    hide Finalize;
    CreateFacts(s, pid, conn, src, d);
  }

  lemma BoundedAfterThinning(a: Lobby, b: Lobby, c: Lobby)
    requires Thinned(a, b)
    ensures Bounded(a, b) && (Bounded(b, c) ==> Bounded(a, c))
  {
  }

  lemma AutoStep(s: Store, op: Op)
    requires Ok(s) && Enabled(s, op) && op.OpAuto?
    ensures Ok(Apply(s, op)) && StepBounded(s, Apply(s, op))
  {
    hide LobbyOk;
    hide AutoMatchmake;
    hide Thinned;
    hide Bounded;
    hide Occupied;
    hide Capacity;
    hide Reaches;
    var s1, gid, l, isNew := AutoFacts(s, op.pid, op.conn, op.src, op.draw, op.solo, op.classes, op.order,
                                       op.now, op.now', op.now'');
    var s' := Apply(s, op);
    OkPut(s1, gid, l);
    forall g | g in s'.gatherings
      ensures if g in s.gatherings then Bounded(s.gatherings[g], s'.gatherings[g])
              else Occupied(s'.gatherings[g]) <= Capacity(s'.gatherings[g])
    {
      if g in s.gatherings { BoundedAfterThinning(s.gatherings[g], s1.gatherings[g], s'.gatherings[g]); }
      if g == gid && isNew && g in s.gatherings { FitsIsBounded(s.gatherings[g], l); }
    }
  }

  lemma FitsIsBounded(a: Lobby, b: Lobby)
    requires Occupied(b) <= Capacity(b)
    ensures Bounded(a, b)
  {
  }

  lemma MigrateOk(l: Lobby, candidates: seq<Pid>)
    requires LobbyOk(l)
    ensures LobbyOk(Migrate(l, candidates)) && Occupied(Migrate(l, candidates)) == Occupied(l)
    ensures forall p :: p in Migrate(l, candidates).participants <==> p in l.participants
    ensures Migrate(l, candidates).session == l.session
  {
    hide Distinct;
    MigrateFacts(l, candidates);
    FirstMemberIsMember(candidates, l.participants);
    var f := FirstMember(candidates, l.participants);
    if f.Some? {
      SwapFacts(l.participants, f.value);
      SwapDistinct(l.participants, f.value);
    }
  }

  /** Changing session fields that no invariant reads. */
  lemma FieldStep(l: Lobby, l': Lobby)
    requires LobbyOk(l)
    requires l'.participants == l.participants && l'.reservations == l.reservations
    requires l'.session.numParticipants == l.session.numParticipants && Capacity(l') > 0
    ensures LobbyOk(l') && Bounded(l, l')
  {
  }

  /** What an operation may do to the gathering it names: keep it well-formed and its seats within
      bounds, change its capacity only by a session-part update, gain a member only by a join. */
  predicate Touched(l: Lobby, l': Lobby, op: Op) {
    && LobbyOk(l') && Bounded(l, l') && l'.session.gathering.id == l.session.gathering.id
    && (!op.OpPart? ==> Capacity(l') == Capacity(l))
    && (!op.OpJoin? ==> forall p :: p in l'.participants ==> p in l.participants)
  }

  lemma TouchSeats(l: Lobby, op: Op, ttl: int)
    requires LobbyOk(l) && (op.OpJoin? || op.OpReserve? || op.OpCancel?)
    ensures Touch(l, op, ttl).Some? && Touched(l, Touch(l, op, ttl).value, op)
  {
    hide Reserve;
    hide Seat;
    if op.OpJoin? {
      CountedSame(l);
      hide LobbyOk;
      SeatFacts(l, op.pid, op.now, op.now', ttl);
    } else if op.OpReserve? {
      hide LobbyOk;
      ReserveFacts(l, op.pid, op.now, ttl);
    } else {
      hide LobbyOk;
      ReleaseOk(l, op.pid);
      ReleaseFacts(l, op.pid);
    }
  }

  lemma CountedSame(l: Lobby)
    requires LobbyOk(l)
    ensures Counted(l) == l
  {
  }

  lemma TouchMembers(l: Lobby, op: Op, ttl: int)
    requires LobbyOk(l) && (op.OpEnd? || op.OpUnregister? || op.OpMigrate?)
    ensures Touch(l, op, ttl).Some? ==> Touched(l, Touch(l, op, ttl).value, op)
  {
    hide LobbyOk;
    hide Migrate;
    if op.OpEnd? && Without(l.participants, op.pid) != [] {
      LeaveFacts(l, op.pid);
      WithoutFacts(l.participants, op.pid);
    } else if op.OpMigrate? {
      MigrateOk(l, op.candidates);
    }
  }

  lemma TouchFields(l: Lobby, op: Op, ttl: int)
    requires LobbyOk(l) && (op.OpPart? || op.OpSetOpen? || op.OpBuffer? || op.OpAttribute? || op.OpCode?)
    ensures Touch(l, op, ttl).Some? && Touched(l, Touch(l, op, ttl).value, op)
  {
    assert Capacity(l) > 0;
    hide LobbyOk;
    hide Bounded;
    hide SetAttribute;
    FieldStep(l, Touch(l, op, ttl).value);
  }

  lemma TouchFacts(l: Lobby, op: Op, ttl: int)
    requires LobbyOk(l) && Target(op).Some?
    ensures Touch(l, op, ttl).Some? ==> Touched(l, Touch(l, op, ttl).value, op)
  {
    hide LobbyOk;
    hide Touch;
    hide Touched;
    if op.OpJoin? || op.OpReserve? || op.OpCancel? { TouchSeats(l, op, ttl); }
    else if op.OpEnd? || op.OpUnregister? || op.OpMigrate? { TouchMembers(l, op, ttl); }
    else { TouchFields(l, op, ttl); }
  }

  /** A named operation leaves every other gathering as it is. */
  lemma LocalFacts(s: Store, op: Op)
    requires Ok(s) && Target(op).Some?
    ensures var s' := ApplyLocal(s, op); var gid := Target(op).value;
            && s'.nextGID == s.nextGID
            && (forall g :: g in s'.gatherings ==> g in s.gatherings)
            && (forall g :: g in s'.gatherings && g != gid ==> s'.gatherings[g] == s.gatherings[g])
            && (gid in s'.gatherings ==> Touched(s.gatherings[gid], s'.gatherings[gid], op))
  {
    hide LobbyOk;
    hide Touch;
    hide Touched;
    var gid := Target(op).value;
    if gid in s.gatherings { TouchFacts(s.gatherings[gid], op, s.ttl); }
  }

  lemma BoundedSelf(l: Lobby)
    ensures Bounded(l, l)
  {
  }

  lemma LocalStep(s: Store, op: Op)
    requires Ok(s) && Target(op).Some?
    ensures Ok(ApplyLocal(s, op)) && StepBounded(s, ApplyLocal(s, op))
  {
    hide LobbyOk;
    hide ApplyLocal;
    hide Bounded;
    hide Occupied;
    hide Capacity;
    LocalFacts(s, op);
    var s', gid := ApplyLocal(s, op), Target(op).value;
    forall g | g in s'.gatherings
      ensures g in s.gatherings && LobbyOk(s'.gatherings[g]) && s'.gatherings[g].session.gathering.id == g
              && Bounded(s.gatherings[g], s'.gatherings[g])
    {
      if g != gid { BoundedSelf(s.gatherings[g]); }
    }
  }

  lemma DisconnectFacts(s: Store, pid: Pid, g: u32)
    requires Ok(s) && g in RemovePlayer(s, pid).gatherings
    ensures g in s.gatherings
    ensures var l, l' := s.gatherings[g], RemovePlayer(s, pid).gatherings[g];
            && LobbyOk(l') && Bounded(l, l') && l'.session.gathering == l.session.gathering
            && (forall p :: p in l'.participants ==> p in l.participants)
  {
    hide LobbyOk;
    var l := s.gatherings[g];
    if pid in l.participants {
      if pid != 0 { LeaveFacts(l, pid); }
      WithoutFacts(l.participants, pid);
    } else {
      ReleaseOk(l, pid);
      ReleaseFacts(l, pid);
    }
  }

  lemma DisconnectStep(s: Store, pid: Pid)
    requires Ok(s)
    ensures Ok(RemovePlayer(s, pid)) && StepBounded(s, RemovePlayer(s, pid))
  {
    hide LobbyOk;
    hide RemovePlayer;
    var s' := RemovePlayer(s, pid);
    forall g | g in s'.gatherings
      ensures g in s.gatherings && LobbyOk(s'.gatherings[g]) && s'.gatherings[g].session.gathering.id == g
              && Bounded(s.gatherings[g], s'.gatherings[g])
    {
      DisconnectFacts(s, pid, g);
    }
  }

  /** Every operation keeps every gathering well-formed and every seat count within bounds. */
  lemma StepOk(s: Store, op: Op)
    requires Ok(s) && Enabled(s, op)
    ensures Ok(Apply(s, op)) && StepBounded(s, Apply(s, op))
  {
    if Target(op).Some? {
      hide LobbyOk;
      hide ApplyLocal;
      LocalStep(s, op);
    } else {
      match op
      case OpCreate(pid, conn, src, draw) => CreateStep(s, pid, conn, src, draw);
      case OpAuto(_, _, _, _, _, _, _, _, _, _) => AutoStep(s, op);
      case OpDisconnect(pid) => DisconnectStep(s, pid);
      case OpSetTtl(_) =>
    }
  }

  // ---- whole runs ---------------------------------------------------------

  /** In every reachable state every gathering is well-formed, also after ids have wrapped around. */
  lemma {:induction false} AlwaysOk(ops: seq<Op>)
    requires Run(ops).Some?
    ensures Ok(Run(ops).value)
    decreases |ops|
  {
    hide Apply;
    if ops == [] {
    } else {
      hide Ok;
      hide Enabled;
      AlwaysOk(ops[..|ops| - 1]);
      StepOk(Run(ops[..|ops| - 1]).value, ops[|ops| - 1]);
    }
  }

  /** Over any run the "capacity changed" branch of auto-matchmaking is never taken. */
  lemma FallbackNeverTaken(ops: seq<Op>, op: Op)
    requires Run(ops).Some? && op.OpAuto? && Enabled(Run(ops).value, op)
    ensures !AutoMatchmake(Run(ops).value, op.pid, op.conn, op.src, op.draw, op.solo, op.classes, op.order,
                           op.now, op.now', op.now'').fellBack
  {
    hide Run;
    hide AutoMatchmake;
    AlwaysOk(ops);
    FallbackUnreachable(Run(ops).value, op.pid, op.conn, op.src, op.draw, op.solo, op.classes, op.order,
                        op.now, op.now', op.now'');
  }

  // ---- capacity -----------------------------------------------------------

  predicate Capped(s: Store) {
    forall g :: g in s.gatherings ==> Occupied(s.gatherings[g]) <= Capacity(s.gatherings[g])
  }

  /** A session-part update that puts a gathering's capacity below its current one. */
  predicate Lowers(s: Store, op: Op) {
    && op.OpPart? && op.part.gid in s.gatherings
    && 0 < op.part.maxParticipants < Capacity(s.gatherings[op.part.gid])
  }

  predicate Unlowered(s: Store, s': Store) {
    forall g :: g in s.gatherings && g in s'.gatherings ==>
      || Capacity(s'.gatherings[g]) >= Capacity(s.gatherings[g])
      || Occupied(s'.gatherings[g]) <= Capacity(s'.gatherings[g])
  }

  lemma AutoCapacityAt(a: Lobby, b: Lobby, c: Lobby, pid: Pid, classes: NatMap)
    requires Thinned(a, b) && (c == b || Seated(b, c, pid, classes))
    ensures Capacity(c) == Capacity(a)
  {
  }

  lemma AutoCapacity(s: Store, op: Op)
    requires Ok(s) && Enabled(s, op) && op.OpAuto?
    ensures Unlowered(s, Apply(s, op))
  {
    hide LobbyOk;
    hide AutoMatchmake;
    hide Thinned;
    hide Seated;
    hide Occupied;
    hide Capacity;
    var s1, gid, l, isNew := AutoFacts(s, op.pid, op.conn, op.src, op.draw, op.solo, op.classes, op.order,
                                       op.now, op.now', op.now'');
    var s' := Apply(s, op);
    forall g | g in s.gatherings && g in s'.gatherings
      ensures Capacity(s'.gatherings[g]) >= Capacity(s.gatherings[g])
           || Occupied(s'.gatherings[g]) <= Capacity(s'.gatherings[g])
    {
      if g != gid || !isNew {
        AutoCapacityAt(s.gatherings[g], s1.gatherings[g], s'.gatherings[g], op.pid, op.classes);
      }
    }
  }

  lemma PartCapacity(s: Store, p: Part)
    requires !Lowers(s, OpPart(p))
    ensures Unlowered(s, Apply(s, OpPart(p)))
  {
    hide HasBit;
    hide WritesCode;
    hide Occupied;
  }

  lemma LocalCapacity(s: Store, op: Op)
    requires Ok(s) && Enabled(s, op) && !Lowers(s, op) && Target(op).Some?
    ensures Unlowered(s, Apply(s, op))
  {
    hide LobbyOk;
    hide ApplyLocal;
    hide Bounded;
    hide Occupied;
    if op.OpPart? { PartCapacity(s, op.part); } else { LocalFacts(s, op); }
  }

  lemma DisconnectCapacity(s: Store, pid: Pid)
    requires Ok(s)
    ensures Unlowered(s, RemovePlayer(s, pid))
  {
    hide LobbyOk;
    hide RemovePlayer;
    hide Bounded;
    var s' := RemovePlayer(s, pid);
    forall g | g in s'.gatherings
      ensures g in s.gatherings && Capacity(s'.gatherings[g]) == Capacity(s.gatherings[g])
    {
      DisconnectFacts(s, pid, g);
    }
  }

  lemma CapacityKept(s: Store, op: Op)
    requires Ok(s) && Enabled(s, op) && !Lowers(s, op)
    ensures Unlowered(s, Apply(s, op))
  {
    hide LobbyOk;
    hide RemovePlayer;
    hide ApplyLocal;
    hide AutoMatchmake;
    if Target(op).Some? { LocalCapacity(s, op); }
    else if op.OpAuto? { AutoCapacity(s, op); }
    else if op.OpDisconnect? { DisconnectCapacity(s, op.pid); }
    else if op.OpCreate? { CreateFacts(s, op.pid, op.conn, op.src, op.draw); }
  }

  /** Operations other than a session-part update keep every gathering within its capacity. */
  lemma CappedOtherwise(s: Store, op: Op)
    requires Ok(s) && Capped(s) && Enabled(s, op) && !op.OpPart?
    ensures Capped(Apply(s, op))
  {
    assert !Lowers(s, op);
    hide Apply;
    hide Ok;
    hide Enabled;
    StepOk(s, op);
    CapacityKept(s, op);
    var s' := Apply(s, op);
    forall g | g in s'.gatherings ensures Occupied(s'.gatherings[g]) <= Capacity(s'.gatherings[g]) {
      if g in s.gatherings { assert Bounded(s.gatherings[g], s'.gatherings[g]); }
    }
  }

  /** A session-part update that sets a maximum below the gathering's occupancy. */
  predicate Overbooks(s: Store, op: Op) {
    && op.OpPart? && op.part.gid in s.gatherings
    && 0 < op.part.maxParticipants < Occupied(s.gatherings[op.part.gid])
  }

  /** Exactly which updates leave a gathering overbooked: those that set its maximum below its occupancy. */
  lemma PartOverbooksExactly(s: Store, p: Part)
    requires p.gid in s.gatherings && Occupied(s.gatherings[p.gid]) <= Capacity(s.gatherings[p.gid])
    ensures var l' := Apply(s, OpPart(p)).gatherings[p.gid];
            Occupied(l') > Capacity(l') <==> 0 < p.maxParticipants < Occupied(s.gatherings[p.gid])
  {
  }

  lemma PartElsewhere(s: Store, p: Part, g: u32)
    requires g != p.gid
    ensures var s' := Apply(s, OpPart(p));
            && (g in s'.gatherings <==> g in s.gatherings)
            && (g in s.gatherings ==> s'.gatherings[g] == s.gatherings[g])
  {
    hide MatchStore.ApplyPart;
  }

  lemma CappedPart(s: Store, p: Part)
    requires Capped(s)
    ensures Capped(Apply(s, OpPart(p))) <==> !Overbooks(s, OpPart(p))
  {
    var s' := Apply(s, OpPart(p));
    assert p.gid in s'.gatherings <==> p.gid in s.gatherings;
    if p.gid in s.gatherings { PartOverbooksExactly(s, p); }
    hide Apply;
    hide Occupied;
    hide Capacity;
    forall g | g in s'.gatherings && g != p.gid ensures Occupied(s'.gatherings[g]) <= Capacity(s'.gatherings[g]) {
      PartElsewhere(s, p, g);
    }
  }

  /** Of all operations exactly those updates take a store out of its capacities. */
  lemma CappedStep(s: Store, op: Op)
    requires Ok(s) && Capped(s) && Enabled(s, op)
    ensures Capped(Apply(s, op)) <==> !Overbooks(s, op)
  {
    hide Apply;
    hide Ok;
    hide Enabled;
    hide Capped;
    if op.OpPart? { CappedPart(s, op.part); } else { CappedOtherwise(s, op); }
  }

  predicate NeverOverbooks(ops: seq<Op>) {
    forall k :: 0 <= k < |ops| && Run(ops[..k]).Some? ==> !Overbooks(Run(ops[..k]).value, ops[k])
  }

  predicate AlwaysCapped(ops: seq<Op>) {
    forall k :: 0 <= k <= |ops| && Run(ops[..k]).Some? ==> Capped(Run(ops[..k]).value)
  }

  /** A run that is possible as a whole is possible up to any point. */
  lemma {:induction false} RunsSoFar(ops: seq<Op>, k: nat)
    requires Run(ops).Some? && k <= |ops|
    ensures Run(ops[..k]).Some?
    decreases |ops|
  {
    hide Apply;
    hide Enabled;
    if k == |ops| {
      assert ops[..k] == ops;
    } else {
      var before := ops[..|ops| - 1];
      RunsSoFar(before, k);
      assert before[..k] == ops[..k];
    }
  }

  lemma RunStep(ops: seq<Op>, k: nat)
    requires Run(ops).Some? && k < |ops|
    ensures Run(ops[..k]).Some? && Run(ops[..k + 1]).Some?
    ensures Enabled(Run(ops[..k]).value, ops[k]) && Run(ops[..k + 1]).value == Apply(Run(ops[..k]).value, ops[k])
    ensures Ok(Run(ops[..k]).value)
  {
    hide Apply;
    hide Enabled;
    hide Ok;
    RunsSoFar(ops, k);
    RunsSoFar(ops, k + 1);
    AlwaysOk(ops[..k]);
    assert ops[..k + 1][..k] == ops[..k] && ops[..k + 1][k] == ops[k];
  }

  lemma {:induction false} CappedSoFar(ops: seq<Op>, k: nat)
    requires Run(ops).Some? && NeverOverbooks(ops) && k <= |ops|
    ensures Run(ops[..k]).Some? && Capped(Run(ops[..k]).value)
  {
    hide Apply;
    hide Enabled;
    hide Overbooks;
    hide Ok;
    if k == 0 {
      assert ops[..0] == [];
    } else {
      hide Capped;
      CappedSoFar(ops, k - 1);
      RunStep(ops, k - 1);
      hide Run;
      CappedStep(Run(ops[..k - 1]).value, ops[k - 1]);
    }
  }

  /** Over any run, members and reservations together stay within every maximum throughout if and only
      if no update sets a maximum below the occupancy it finds. */
  lemma NeverOverbooked(ops: seq<Op>)
    requires Run(ops).Some?
    ensures AlwaysCapped(ops) <==> NeverOverbooks(ops)
  {
    hide Run;
    hide Overbooks;
    hide Capped;
    hide Ok;
    if NeverOverbooks(ops) {
      forall k | 0 <= k <= |ops| && Run(ops[..k]).Some? ensures Capped(Run(ops[..k]).value) { CappedSoFar(ops, k); }
    }
    if AlwaysCapped(ops) {
      forall k | 0 <= k < |ops| && Run(ops[..k]).Some? ensures !Overbooks(Run(ops[..k]).value, ops[k]) {
        RunStep(ops, k);
        CappedStep(Run(ops[..k]).value, ops[k]);
      }
    }
  }

  /** The states a run passes through. */
  function RunFrom(s: Store, ops: seq<Op>): Option<Store> {
    if ops == [] then Some(s)
    else
      match RunFrom(s, ops[..|ops| - 1])
      case None => None
      case Some(p) => if Enabled(p, ops[|ops| - 1]) then Some(Apply(p, ops[|ops| - 1])) else None
  }

  /** `gid` is there after every prefix of the run, with a capacity of at most `c`. */
  predicate Persists(s: Store, ops: seq<Op>, gid: u32, c: nat) {
    forall k :: 0 <= k <= |ops| && RunFrom(s, ops[..k]).Some? ==>
      gid in RunFrom(s, ops[..k]).value.gatherings && Capacity(RunFrom(s, ops[..k]).value.gatherings[gid]) <= c
  }

  /** After a lowering, however a run continues, an overbooked gathering cannot gain seats: its
      occupancy never passes what it was, or the capacity if that is higher. */
  lemma {:induction false} OverfullNeverGrows(s: Store, ops: seq<Op>, gid: u32, c: nat)
    requires Ok(s) && RunFrom(s, ops).Some? && Persists(s, ops, gid, c)
    ensures Ok(RunFrom(s, ops).value)
    ensures gid in s.gatherings && gid in RunFrom(s, ops).value.gatherings
    ensures Occupied(RunFrom(s, ops).value.gatherings[gid]) <= Occupied(s.gatherings[gid])
         || Occupied(RunFrom(s, ops).value.gatherings[gid]) <= c
    decreases |ops|
  {
    hide Apply;
    hide Enabled;
    hide Ok;
    assert ops[..0] == [] && ops[..|ops|] == ops;
    assert gid in RunFrom(s, ops[..0]).value.gatherings;
    if ops == [] {
    } else {
      var before := ops[..|ops| - 1];
      assert Persists(s, before, gid, c) by {
        forall k | 0 <= k <= |before| && RunFrom(s, before[..k]).Some?
          ensures gid in RunFrom(s, before[..k]).value.gatherings
                  && Capacity(RunFrom(s, before[..k]).value.gatherings[gid]) <= c
        {
          assert before[..k] == ops[..k];
        }
      }
      OverfullNeverGrows(s, before, gid, c);
      var p := RunFrom(s, before).value;
      StepOk(p, ops[|ops| - 1]);
      assert Bounded(p.gatherings[gid], RunFrom(s, ops).value.gatherings[gid]);
    }
  }

  // ---- identifiers --------------------------------------------------------

  predicate IdsBelowNext(s: Store) { forall g :: g in s.gatherings ==> g < s.nextGID }

  lemma AutoIds(s: Store, op: Op)
    requires Ok(s) && Enabled(s, op) && op.OpAuto?
    ensures var s' := Apply(s, op);
            && (forall g :: g in s'.gatherings ==> g in s.gatherings || (g == s.nextGID && s'.nextGID != s.nextGID))
            && (s'.nextGID == s.nextGID || s'.nextGID == (s.nextGID + 1) % 0x1_0000_0000)
  {
    hide Ok;
    hide LobbyOk;
    hide AutoMatchmake;
    hide Thinned;
    hide Seated;
    hide Occupied;
    hide Capacity;
    var s1, gid, l, isNew := AutoFacts(s, op.pid, op.conn, op.src, op.draw, op.solo, op.classes, op.order,
                                       op.now, op.now', op.now'');
  }

  /** Until the id counter wraps, ids stay below it, so no new gathering replaces a live one. */
  lemma IdsStep(s: Store, op: Op)
    requires Ok(s) && Enabled(s, op) && IdsBelowNext(s) && s.nextGID < 0xFFFF_FFFF
    ensures IdsBelowNext(Apply(s, op))
    ensures s.nextGID !in s.gatherings
    ensures Apply(s, op).nextGID == s.nextGID || Apply(s, op).nextGID == s.nextGID + 1
  {
    hide Ok;
    hide LobbyOk;
    hide ApplyLocal;
    hide AutoMatchmake;
    hide Finalize;
    if Target(op).Some? {
      LocalFacts(s, op);
    } else if op.OpAuto? {
      AutoIds(s, op);
    }
  }

  predicate NeverWraps(ops: seq<Op>) {
    forall k :: 0 <= k < |ops| && Run(ops[..k]).Some? ==> Run(ops[..k]).value.nextGID < 0xFFFF_FFFF
  }

  lemma {:induction false} IdsAlwaysBelowNext(ops: seq<Op>)
    requires Run(ops).Some? && NeverWraps(ops)
    ensures IdsBelowNext(Run(ops).value)
    decreases |ops|
  {
    hide Apply;
    hide Enabled;
    if ops == [] {
    } else {
      var before := ops[..|ops| - 1];
      assert NeverWraps(before) by {
        forall k | 0 <= k < |before| && Run(before[..k]).Some? ensures Run(before[..k]).value.nextGID < 0xFFFF_FFFF {
          assert before[..k] == ops[..k];
        }
      }
      IdsAlwaysBelowNext(before);
      AlwaysOk(before);
      assert Run(ops[..|ops| - 1]).value.nextGID < 0xFFFF_FFFF;
      IdsStep(Run(before).value, ops[|ops| - 1]);
    }
  }

  // ---- NAT compatibility --------------------------------------------------

  predicate Mutual(l: Lobby, classes: NatMap) {
    forall p, q :: p in l.participants && q in l.participants && p != q ==>
      Compatible(ClassOf(classes, p), ClassOf(classes, q))
  }

  predicate AllMutual(s: Store, classes: NatMap) {
    forall g :: g in s.gatherings ==> Mutual(s.gatherings[g], classes)
  }

  /** Classes as fixed throughout: an auto-match sees the same class for everyone; nobody joins directly. */
  predicate NatAware(op: Op, classes: NatMap) {
    !op.OpJoin? && (op.OpAuto? ==> op.classes == classes)
  }

  /** The pairs kept apart are exactly a strict NAT with another strict or a moderate one. */
  lemma IncompatibleExactly(a: NatClass, b: NatClass)
    ensures !Compatible(a, b) <==> {a, b} == {Strict} || {a, b} == {Strict, Moderate}
  {
    assert a in {a, b} && b in {a, b};
    assert Strict in {Strict, Moderate} && Moderate in {Strict, Moderate};
  }

  lemma CompatibleSymmetric(a: NatClass, b: NatClass)
    ensures Compatible(a, b) == Compatible(b, a)
  {
  }

  lemma FewerMutual(l: Lobby, l': Lobby, classes: NatMap)
    requires Mutual(l, classes) && forall p :: p in l'.participants ==> p in l.participants
    ensures Mutual(l', classes)
  {
  }

  lemma SeatedMutual(l: Lobby, l': Lobby, pid: Pid, classes: NatMap)
    requires Mutual(l, classes) && Seated(l, l', pid, classes)
    ensures Mutual(l', classes)
  {
    hide Compatible;
    forall p, q | p in l'.participants && q in l'.participants && p != q
      ensures Compatible(ClassOf(classes, p), ClassOf(classes, q))
    {
      CompatibleSymmetric(ClassOf(classes, p), ClassOf(classes, q));
    }
  }

  lemma AutoMutual(s: Store, op: Op, classes: NatMap)
    requires Ok(s) && Enabled(s, op) && op.OpAuto? && NatAware(op, classes) && AllMutual(s, classes)
    ensures AllMutual(Apply(s, op), classes)
  {
    hide LobbyOk;
    hide AutoMatchmake;
    hide Compatible;
    var s1, gid, l, isNew := AutoFacts(s, op.pid, op.conn, op.src, op.draw, op.solo, op.classes, op.order,
                                       op.now, op.now', op.now'');
    var s' := Apply(s, op);
    forall g | g in s'.gatherings ensures Mutual(s'.gatherings[g], classes) {
      if g in s.gatherings {
        assert Thinned(s.gatherings[g], s1.gatherings[g]);
        FewerMutual(s.gatherings[g], s1.gatherings[g], classes);
      }
      if g == gid && !isNew { SeatedMutual(s1.gatherings[g], l, op.pid, classes); }
    }
  }

  lemma NatStep(s: Store, op: Op, classes: NatMap)
    requires Ok(s) && Enabled(s, op) && NatAware(op, classes) && AllMutual(s, classes)
    ensures AllMutual(Apply(s, op), classes)
  {
    hide Compatible;
    hide LobbyOk;
    if op.OpAuto? {
      AutoMutual(s, op, classes);
    } else {
      var s' := Apply(s, op);
      forall g | g in s'.gatherings ensures Mutual(s'.gatherings[g], classes) {
        if g in s.gatherings && !(op.OpCreate? && g == s.nextGID) {
          NoNewMembers(s, op, g);
          FewerMutual(s.gatherings[g], s'.gatherings[g], classes);
        }
      }
    }
  }

  lemma NoNewMembers(s: Store, op: Op, g: u32)
    requires Ok(s) && Enabled(s, op) && !op.OpAuto? && !op.OpJoin? && g in s.gatherings
    requires g in Apply(s, op).gatherings && !(op.OpCreate? && g == s.nextGID)
    ensures forall p :: p in Apply(s, op).gatherings[g].participants ==> p in s.gatherings[g].participants
  {
    hide LobbyOk;
    hide ApplyLocal;
    hide RemovePlayer;
    hide Finalize;
    hide Capacity;
    hide Bounded;
    if Target(op).Some? { LocalFacts(s, op); }
    else if op.OpDisconnect? { DisconnectFacts(s, op.pid, g); }
    hide Ok;
  }

  /** With fixed NAT classes and members entering only through auto-matchmaking, every gathering
      stays pairwise compatible through all joins, leaves, migrations and disconnects. */
  lemma {:induction false} AlwaysMutual(ops: seq<Op>, classes: NatMap)
    requires Run(ops).Some? && forall k :: 0 <= k < |ops| ==> NatAware(ops[k], classes)
    ensures AllMutual(Run(ops).value, classes)
    decreases |ops|
  {
    hide Apply;
    hide Enabled;
    hide NatAware;
    if ops == [] {
    } else {
      hide AllMutual;
      var before := ops[..|ops| - 1];
      AlwaysMutual(before, classes);
      AlwaysOk(before);
      NatStep(Run(before).value, ops[|ops| - 1], classes);
    }
  }

  // ---- what a success answer means ----------------------------------------

  /** A join that is not refused leaves the caller a member exactly when it was one already or the
      commit came before the reservation ran out. */
  lemma JoinSeatsExactly(l: Lobby, pid: Pid, now: int, now': int, ttl: int)
    requires LobbyOk(l) && Seat(l, pid, now, now', ttl).1
    ensures var l' := Seat(l, pid, now, now', ttl).0;
            && (pid in l'.participants <==> pid in l.participants || now' < now + ttl)
            && l'.session.numParticipants == |l'.participants| % 0x1_0000_0000
            && (forall p :: p != pid ==> (p in l'.participants <==> p in l.participants))
  {
    var l1 := Reserve(l, pid, now, ttl).0;
    assert pid !in l.participants ==> pid in l1.reservations && l1.reservations[pid] == now + ttl;
  }

  // ---- the operation that does not end ------------------------------------

  /** One step into any run the host of a new gathering can name the last attribute index: the growth of
      its list, whatever its length, has no end. */
  lemma StallReached(pid: Pid, conn: u32, src: MatchmakeSession, d: Draw, value: u32)
    ensures var s := Run([OpCreate(pid, conn, src, d)]);
            && s.Some? && Stalls(s.value, OpAttribute(1, pid, LAST_INDEX, value))
            && 1 in s.value.gatherings
            && !exists n: nat :: |s.value.gatherings[1].session.attribs| <= n && !Growing(n, LAST_INDEX)
  {
    hide Finalize;
    var op := OpCreate(pid, conn, src, d);
    assert [op][..0] == [];
    assert Run([]) == Some(NewStore());
    assert Run([op]) == Some(Create(NewStore(), pid, conn, src, d));
    GrowthEndsExactly(|Run([op]).value.gatherings[1].session.attribs|, LAST_INDEX);
  }
}
