/** How long a reserved seat is held (nextendo-nex/matchmaking_reservations.go), over whole runs of the store. */
module SeatHolds {
  import opened Bytes
  import opened Session
  import opened MatchStore
  import opened MatchInvariants
  import opened MatchLaws
  import opened MatchRuns

  /** The player's seat in the gathering is held until `until`. */
  predicate Held(s: Store, gid: u32, pid: Pid, until: int) {
    gid in s.gatherings && pid in s.gatherings[gid].reservations && s.gatherings[gid].reservations[pid] == until
  }

  /** All clock readings of the operation are earlier than `until`. */
  predicate Before(op: Op, until: int) {
    match op
    case OpAuto(_, _, _, _, _, _, _, now, now', now'') => now < until && now' < until && now'' < until
    case OpJoin(_, _, now, now') => now < until && now' < until
    case OpReserve(_, _, now) => now < until
    case _ => true
  }

  /** The player asks for the seat again. */
  predicate Renews(op: Op, gid: u32, pid: Pid) { op.OpReserve? && op.gid == gid && op.pid == pid && pid != 0 }

  /** The operations that end a hold: the player's own joining, cancelling, leaving or disconnecting, and whatever
      removes or replaces the gathering. */
  predicate Ends(s: Store, op: Op, gid: u32, pid: Pid) {
    && gid in s.gatherings
    && var l := s.gatherings[gid];
       match op
       case OpCreate(_, _, _, _) => s.nextGID == gid
       case OpAuto(p, _, _, _, _, _, order, _, _, _) =>
         if Opens(s, op) then s.nextGID == gid
         else p == pid && exists i: nat :: i < |order| && Enters(s, op, i) && order[i] == gid
       case OpJoin(g, p, _, _) => g == gid && p == pid
       case OpCancel(g, p) => g == gid && p == pid
       case OpEnd(g, p) => g == gid && (p == pid || OnlyMember(l, p))
       case OpUnregister(g, p) => g == gid && l.session.gathering.ownerPID == p
       case OpDisconnect(p) =>
         p != 0 && (p == pid || (p in l.participants && (l.session.gathering.ownerPID == p || OnlyMember(l, p))))
       case _ => false
  }

  // ---- one step -----------------------------------------------------------

  lemma LapsedHolds(l: Lobby, l': Lobby, pid: Pid, until: int, now: int)
    requires Lapsed(l, l', now) && pid in l.reservations && l.reservations[pid] == until && now < until
    ensures pid in l'.reservations && l'.reservations[pid] == until
  {
  }

  lemma EnteredHolds(l: Lobby, l': Lobby, op: Op, ttl: int, pid: Pid, until: int)
    requires op.OpAuto? && Entered(l, l', op, ttl) && LobbyOk(l) && Before(op, until)
    requires pid in l.reservations && l.reservations[pid] == until
    ensures pid in l'.reservations <==> op.pid != pid
    ensures pid in l'.reservations ==> l'.reservations[pid] == until
  {
  }

  lemma OneEntered(s: Store, op: Op, i: nat, j: nat)
    requires op.OpAuto? && Enters(s, op, i) && Enters(s, op, j)
    ensures i == j
  {
    hide Enterable;
  }

  lemma AutoHolds(s: Store, op: Op, gid: u32, pid: Pid, until: int)
    requires Ok(s) && Enabled(s, op) && op.OpAuto? && Held(s, gid, pid, until) && Before(op, until)
    ensures Held(Apply(s, op), gid, pid, until) <==> !Ends(s, op, gid, pid)
  {
    hide Apply;
    hide LobbyOk;
    hide Enabled;
    hide Enterable;
    AutoExactly(s, op);
    var s' := Apply(s, op);
    if Opens(s, op) {
      hide Lapsed;
      if gid != s.nextGID { LapsedHolds(s.gatherings[gid], s'.gatherings[gid], pid, until, op.now); }
    } else {
      hide Opens;
      var i: nat :| Enters(s, op, i) && EnteredOnly(s, s', op, op.order[i]);
      hide Lapsed;
      hide Entered;
      forall j: nat | Enters(s, op, j) ensures j == i { OneEntered(s, op, i, j); }
      if gid == op.order[i] {
        EnteredHolds(s.gatherings[gid], s'.gatherings[gid], op, s.ttl, pid, until);
      } else {
        LapsedHolds(s.gatherings[gid], s'.gatherings[gid], pid, until, op.now);
      }
    }
  }

  /** What an operation that names the gathering makes of the player's seat. */
  lemma TouchHolds(l: Lobby, op: Op, ttl: int, pid: Pid, until: int)
    requires LobbyOk(l) && Target(op).Some? && pid in l.reservations && l.reservations[pid] == until
    requires Before(op, until) && !(op.OpReserve? && op.pid == pid && pid != 0)
    ensures var t := Touch(l, op, ttl);
            (t.Some? && pid in t.value.reservations && t.value.reservations[pid] == until) <==>
              match op
              case OpJoin(_, p, _, _) => p != pid
              case OpCancel(_, p) => p != pid
              case OpEnd(_, p) => p != pid && !OnlyMember(l, p)
              case OpUnregister(_, p) => l.session.gathering.ownerPID != p
              case _ => true
  {
    hide Seat;
    hide Reserve;
    hide End;
    hide ApplyPart;
    hide SetAttribute;
    match op
    case OpJoin(_, p, now, now') => SeatExactly(l, p, now, now', ttl);
    case OpReserve(_, p, now) => ReserveExactly(l, p, now, ttl);
    case OpEnd(_, p) => EndLeaves(l, p);
    case OpPart(part) => PartExactly(l, part);
    case OpMigrate(_, candidates) => MigrateFacts(l, candidates);
    case _ =>
    hide Migrate;
    hide LobbyOk;
  }

  /** What a named operation makes of its gathering; every other stays. */
  lemma LocalAt(s: Store, op: Op, gid: u32)
    requires Target(op).Some? && gid in s.gatherings
    ensures var s' := ApplyLocal(s, op);
            if Target(op).value != gid then gid in s'.gatherings && s'.gatherings[gid] == s.gatherings[gid]
            else
              && (gid in s'.gatherings <==> Touch(s.gatherings[gid], op, s.ttl).Some?)
              && (gid in s'.gatherings ==> s'.gatherings[gid] == Touch(s.gatherings[gid], op, s.ttl).value)
  {
    hide Touch;
  }

  lemma LocalHolds(s: Store, op: Op, gid: u32, pid: Pid, until: int)
    requires Ok(s) && Target(op).Some? && Held(s, gid, pid, until) && Before(op, until) && !Renews(op, gid, pid)
    ensures Held(ApplyLocal(s, op), gid, pid, until) <==> !Ends(s, op, gid, pid)
  {
    hide LobbyOk;
    hide Touch;
    hide ApplyLocal;
    hide OnlyMember;
    hide Opens;
    hide Enters;
    LocalAt(s, op, gid);
    if Target(op).value == gid { TouchHolds(s.gatherings[gid], op, s.ttl, pid, until); }
    hide Before;
    hide Renews;
  }

  lemma DisconnectHolds(s: Store, p: Pid, gid: u32, pid: Pid, until: int)
    requires Ok(s) && Held(s, gid, pid, until)
    ensures Held(RemovePlayer(s, p), gid, pid, until) <==> !Ends(s, OpDisconnect(p), gid, pid)
  {
    hide LobbyOk;
    hide OnlyMember;
    hide Others;
    if p != 0 {
      hide RemovePlayer;
      DisconnectExactly(s, p, gid);
    }
  }

  /** Before its time, a hold survives exactly the operations that do not end it. */
  lemma HoldStep(s: Store, op: Op, gid: u32, pid: Pid, until: int)
    requires Ok(s) && Enabled(s, op) && Held(s, gid, pid, until) && Before(op, until) && !Renews(op, gid, pid)
    ensures Held(Apply(s, op), gid, pid, until) <==> !Ends(s, op, gid, pid)
  {
    hide LobbyOk;
    if op.OpAuto? {
      hide Apply;
      hide Ends;
      AutoHolds(s, op, gid, pid, until);
    } else if Target(op).Some? {
      hide ApplyLocal;
      hide Ends;
      LocalHolds(s, op, gid, pid, until);
    } else if op.OpDisconnect? {
      hide RemovePlayer;
      hide Ends;
      DisconnectHolds(s, op.pid, gid, pid, until);
    } else {
      hide Finalize;
    }
  }

  /** A seat is granted to a player who is no member if and only if it holds one or members and unexpired
      reservations leave one; it is then held for the time to live. */
  lemma Granted(s: Store, gid: u32, pid: Pid, now: int)
    requires Ok(s) && gid in s.gatherings && pid != 0 && pid !in s.gatherings[gid].participants
    ensures var l := s.gatherings[gid];
            var s' := Apply(s, OpReserve(gid, pid, now));
            var free := pid in Holders(l, now) || Taken(l, now) < l.session.gathering.maxParticipants;
            && (free ==> Held(s', gid, pid, now + s.ttl))
            && (!free ==> gid in s'.gatherings && pid !in s'.gatherings[gid].reservations)
            && (forall p :: p != pid ==> (p in s'.gatherings[gid].reservations <==> p in Holders(l, now)))
  {
    hide Reserve;
    ReserveExactly(s.gatherings[gid], pid, now, s.ttl);
    hide LobbyOk;
  }

  // ---- whole runs ---------------------------------------------------------

  predicate AlwaysHeld(ops: seq<Op>, k: nat, gid: u32, pid: Pid, until: int) {
    forall j :: k <= j <= |ops| && Run(ops[..j]).Some? ==> Held(Run(ops[..j]).value, gid, pid, until)
  }

  predicate NeverEnded(ops: seq<Op>, k: nat, gid: u32, pid: Pid) {
    forall j :: k <= j < |ops| && Run(ops[..j]).Some? ==> !Ends(Run(ops[..j]).value, ops[j], gid, pid)
  }

  /** From the k-th operation on the clock stays below `until` and the player does not ask again. */
  predicate InTime(ops: seq<Op>, k: nat, gid: u32, pid: Pid, until: int) {
    forall j :: k <= j < |ops| ==> Before(ops[j], until) && !Renews(ops[j], gid, pid)
  }

  lemma {:induction false} HeldSoFar(ops: seq<Op>, k: nat, gid: u32, pid: Pid, until: int, j: nat)
    requires Run(ops).Some? && k <= j <= |ops| && InTime(ops, k, gid, pid, until) && NeverEnded(ops, k, gid, pid)
    requires Run(ops[..k]).Some? && Held(Run(ops[..k]).value, gid, pid, until)
    ensures Run(ops[..j]).Some? && Held(Run(ops[..j]).value, gid, pid, until)
    decreases j
  {
    hide Run;
    hide Ends;
    hide Held;
    hide Before;
    hide Renews;
    hide Ok;
    hide Apply;
    hide Enabled;
    if j == k {
    } else {
      HeldSoFar(ops, k, gid, pid, until, j - 1);
      RunStep(ops, j - 1);
      HoldStep(Run(ops[..j - 1]).value, ops[j - 1], gid, pid, until);
    }
  }

  /** However a run continues, a seat stands throughout, as long as the clock is short of its time, if and only if
      no operation ends it. */
  lemma HeldExactly(ops: seq<Op>, k: nat, gid: u32, pid: Pid, until: int)
    requires Run(ops).Some? && k <= |ops| && InTime(ops, k, gid, pid, until)
    requires Run(ops[..k]).Some? && Held(Run(ops[..k]).value, gid, pid, until)
    ensures AlwaysHeld(ops, k, gid, pid, until) <==> NeverEnded(ops, k, gid, pid)
  {
    hide Run;
    hide Ends;
    hide Held;
    hide Before;
    hide Renews;
    hide Ok;
    hide Apply;
    hide Enabled;
    if NeverEnded(ops, k, gid, pid) {
      forall j | k <= j <= |ops| && Run(ops[..j]).Some? ensures Held(Run(ops[..j]).value, gid, pid, until) {
        HeldSoFar(ops, k, gid, pid, until, j);
      }
    }
    if AlwaysHeld(ops, k, gid, pid, until) {
      forall j | k <= j < |ops| && Run(ops[..j]).Some? ensures !Ends(Run(ops[..j]).value, ops[j], gid, pid) {
        RunStep(ops, j);
        HoldStep(Run(ops[..j]).value, ops[j], gid, pid, until);
      }
    }
  }

  /** While members and seats held fill a gathering, a stranger is refused. */
  lemma StrangerRefused(s: Store, gid: u32, holders: set<Pid>, pid: Pid, now: int)
    requires Ok(s) && gid in s.gatherings && pid != 0 && pid !in s.gatherings[gid].participants
    requires forall p :: p in holders ==> p in s.gatherings[gid].reservations && now < s.gatherings[gid].reservations[p]
    requires |s.gatherings[gid].participants| + |holders| >= s.gatherings[gid].session.gathering.maxParticipants
    requires pid !in s.gatherings[gid].reservations || s.gatherings[gid].reservations[pid] <= now
    ensures gid in Apply(s, OpReserve(gid, pid, now)).gatherings
    ensures pid !in Apply(s, OpReserve(gid, pid, now)).gatherings[gid].reservations
  {
    hide LobbyOk;
    hide Apply;
    var l := s.gatherings[gid];
    assert holders <= Holders(l, now);
    SubsetSize(holders, Holders(l, now));
    Granted(s, gid, pid, now);
  }

  lemma {:induction false} SubsetSize(a: set<Pid>, b: set<Pid>)
    requires a <= b
    ensures |a| <= |b|
  {
    assert b == a + (b - a);
  }
}
