/** What the operations of the matchmaking store mean, in terms of members, session fields and reservation times
    alone (nextendo-nex/matchmaking_handlers.go, matchmaking_reservations.go). */
module MatchLaws {
  import opened Bytes
  import opened Session
  import opened MatchStore
  import opened MatchInvariants

  // ---- reservations that count --------------------------------------------

  /** The players whose reservation runs out after `now`. */
  function Holders(l: Lobby, now: int): set<Pid> { set p | p in l.reservations && l.reservations[p] > now }

  lemma ExpireExactly(l: Lobby, now: int)
    ensures var l1 := Expire(l, now);
            && l1 == l.(reservations := l1.reservations)
            && l1.reservations.Keys == Holders(l, now) && |l1.reservations| == |Holders(l, now)|
            && (forall p :: p in Holders(l, now) ==> l1.reservations[p] == l.reservations[p])
  {
    var l1 := Expire(l, now);
    assert l1.reservations.Keys == Holders(l, now);
  }

  /** Seats taken at `now`: members and unexpired reservations. */
  function Taken(l: Lobby, now: int): nat { |l.participants| + |Holders(l, now)| }

  /** Whoever is a member or holds a seat gets one; a stranger does if and only if there is no maximum or members and
      unexpired reservations leave a seat. A request by a non-member clears exactly the reservations that have run
      out. */
  lemma ReserveExactly(l: Lobby, pid: Pid, now: int, ttl: int)
    ensures var (l', ok) := Reserve(l, pid, now, ttl);
            && l' == l.(reservations := l'.reservations)
            && (ok <==> || pid in l.participants || pid in Holders(l, now)
                        || l.session.gathering.maxParticipants == 0
                        || Taken(l, now) < l.session.gathering.maxParticipants)
            && (pid in l.participants ==> l'.reservations == l.reservations - {pid})
            && (pid !in l.participants ==>
                  && (forall p :: p != pid ==> (p in l'.reservations <==> p in Holders(l, now)))
                  && (forall p :: p != pid && p in l'.reservations && p in l.reservations ==>
                        l'.reservations[p] == l.reservations[p])
                  && (pid in l'.reservations <==> ok) && (ok ==> l'.reservations[pid] == now + ttl))
  {
    ExpireExactly(l, now);
    hide Expire;
  }

  /** Nothing but members, their count and reservations differ. */
  predicate SameButSeats(l: Lobby, l': Lobby) {
    && l' == l.(participants := l'.participants, reservations := l'.reservations,
                session := l.session.(numParticipants := l'.session.numParticipants))
    && l'.session.numParticipants == |l'.participants|
  }

  /** A seat asked for and committed: the caller is a member afterwards unless refused or too late, holds no
      reservation, and everyone else's unexpired one stands. */
  lemma SeatExactly(l: Lobby, pid: Pid, now: int, now': int, ttl: int)
    requires LobbyOk(l)
    ensures var (l', ok) := Seat(l, pid, now, now', ttl);
            && (ok <==> || pid in l.participants || pid in Holders(l, now)
                        || Taken(l, now) < l.session.gathering.maxParticipants)
            && l'.participants == l.participants
                                + (if ok && pid !in l.participants && now' < now + ttl then [pid] else [])
            && SameButSeats(l, l') && pid !in l'.reservations
            && (pid in l.participants ==> l'.reservations == l.reservations)
            && (pid !in l.participants ==>
                  && (forall p :: p in l'.reservations <==> p != pid && p in Holders(l, now))
                  && (forall p :: p in l'.reservations ==>
                        p in l.reservations && l'.reservations[p] == l.reservations[p]))
  {
    hide Reserve;
    hide Commit;
    ReserveExactly(l, pid, now, ttl);
    ReserveFacts(l, pid, now, ttl);
    NoDoubleSeat(l, pid);
    assert l.session.gathering.maxParticipants > 0;
    hide LobbyOk;
    hide Taken;
    hide Holders;
    var l1 := Reserve(l, pid, now, ttl).0;
    CommitFacts(l1, pid, now');
    CommitExactly(l1, pid, now');
    CountExact(Commit(l1, pid, now').0);
    assert l.participants + [] == l.participants;
  }

  lemma NoDoubleSeat(l: Lobby, pid: Pid)
    requires LobbyOk(l)
    ensures pid in l.participants ==> pid !in l.reservations && l.reservations - {pid} == l.reservations
  {
  }

  lemma CountExact(l: Lobby)
    requires LobbyOk(Counted(l))
    ensures Counted(l).session.numParticipants == |l.participants|
  {
  }

  /** A commit uses the reservation up; the player is a member by it exactly when it was none and is in time. */
  lemma CommitExactly(l: Lobby, pid: Pid, now: int)
    ensures var (l', joined) := Commit(l, pid, now);
            && l' == l.(reservations := l'.reservations, participants := l'.participants)
            && l'.reservations == l.reservations - {pid}
            && l'.participants == l.participants + (if joined then [pid] else [])
            && (joined <==> pid !in l.participants && pid in l.reservations && l.reservations[pid] > now)
  {
    assert l.participants + [] == l.participants;
  }

  // ---- who may meet whom --------------------------------------------------

  /** Two reports that keep their players apart: one has an endpoint-dependent mapping, and the other has that or
      an endpoint-dependent filter. */
  predicate KeptApart(a: NatReport, b: NatReport) {
    (a.natMap > 1 && (b.natMap > 1 || b.natFilter > 1)) || (b.natMap > 1 && (a.natMap > 1 || a.natFilter > 1))
  }

  predicate MayMeet(classes: NatMap, p: Pid, q: Pid) {
    p in classes && q in classes ==> !KeptApart(classes[p], classes[q])
  }

  lemma CompatibleMeet(classes: NatMap, p: Pid, q: Pid)
    ensures Compatible(ClassOf(classes, p), ClassOf(classes, q)) <==> MayMeet(classes, p, q)
  {
  }

  /** A gathering the caller of an auto-match may enter: of the game mode asked for, open, without a password,
      with a seat left and nobody in it whom the caller may not meet. */
  predicate Enterable(l: Lobby, src: MatchmakeSession, pid: Pid, classes: NatMap, now: int) {
    && l.session.gameMode == src.gameMode && l.session.openParticipation && !l.session.userPasswordEnabled
    && Taken(l, now) < l.session.gathering.maxParticipants
    && (forall m :: m in l.participants && m != pid ==> MayMeet(classes, pid, m))
  }

  lemma ReachesMeet(l: Lobby, pid: Pid, classes: NatMap)
    ensures Reaches(classes, pid, l.participants) <==>
              forall m :: m in l.participants && m != pid ==> MayMeet(classes, pid, m)
  {
    forall m ensures Compatible(ClassOf(classes, pid), ClassOf(classes, m)) <==> MayMeet(classes, pid, m) {
      CompatibleMeet(classes, pid, m);
    }
    hide Compatible;
    hide MayMeet;
    hide ClassOf;
  }

  lemma RoomLeft(l: Lobby, now: int)
    requires LobbyOk(l)
    ensures HasRoom(Expire(l, now)) <==> Taken(l, now) < l.session.gathering.maxParticipants
  {
    ExpireExactly(l, now);
    ExpireFacts(l, now);
    hide Expire;
    hide Holders;
  }

  lemma FitsEnterable(l: Lobby, src: MatchmakeSession, pid: Pid, classes: NatMap, now: int)
    requires LobbyOk(l)
    ensures Fits(l, src, pid, classes, now) <==> Enterable(l, src, pid, classes, now)
  {
    hide LobbyOk;
    hide HasRoom;
    hide Reaches;
    hide MayMeet;
    hide Taken;
    hide Expire;
    RoomLeft(l, now);
    ReachesMeet(l, pid, classes);
  }

  // ---- auto-matchmaking ---------------------------------------------------

  /** A gathering that at most lost reservations, none that runs out after `now`. */
  predicate Lapsed(l: Lobby, l': Lobby, now: int) {
    && l' == l.(reservations := l'.reservations)
    && (forall p :: p in l'.reservations ==> p in l.reservations && l'.reservations[p] == l.reservations[p])
    && (forall p :: p in l.reservations && l.reservations[p] > now ==> p in l'.reservations)
  }

  lemma LapsedTrans(a: Lobby, b: Lobby, c: Lobby, now: int)
    requires Lapsed(a, b, now) && Lapsed(b, c, now)
    ensures Lapsed(a, c, now)
  {
  }

  lemma LapsedSelf(s: Store, now: int)
    ensures forall x :: x in s.gatherings ==> Lapsed(s.gatherings[x], s.gatherings[x], now)
  {
  }

  lemma ExpireLapses(l: Lobby, now: int)
    ensures Lapsed(l, Expire(l, now), now)
  {
    ExpireExactly(l, now);
    hide Expire;
  }

  lemma PutLapses(s: Store, gid: u32, now: int)
    requires gid in s.gatherings
    ensures var s1 := Put(s, gid, Expire(s.gatherings[gid], now));
            && s1 == s.(gatherings := s1.gatherings) && s1.gatherings.Keys == s.gatherings.Keys
            && (forall x :: x in s.gatherings ==> Lapsed(s.gatherings[x], s1.gatherings[x], now))
            && (forall x :: x in s.gatherings && x != gid ==> s1.gatherings[x] == s.gatherings[x])
            && s1.gatherings[gid] == Expire(s.gatherings[gid], now)
  {
    ExpireLapses(s.gatherings[gid], now);
    LapsedSelf(s, now);
    hide Expire;
    hide Lapsed;
  }

  /** Every gathering at most lapses, and those not in the order stay as they are. */
  predicate LapsedAll(s: Store, s1: Store, order: seq<u32>, now: int) {
    && s1 == s.(gatherings := s1.gatherings) && s1.gatherings.Keys == s.gatherings.Keys
    && (forall x :: x in s.gatherings ==> Lapsed(s.gatherings[x], s1.gatherings[x], now))
    && (forall x :: x in s.gatherings && x !in order ==> s1.gatherings[x] == s.gatherings[x])
  }

  lemma LapsedMore(s: Store, s1: Store, s2: Store, order: seq<u32>, now: int)
    requires order != [] && LapsedAll(s, s1, [order[0]], now) && LapsedAll(s1, s2, order[1..], now)
    ensures LapsedAll(s, s2, order, now)
    ensures order[0] !in order[1..] && order[0] in s.gatherings ==> s2.gatherings[order[0]] == s1.gatherings[order[0]]
    ensures forall x :: x in s.gatherings && x != order[0] ==> s1.gatherings[x] == s.gatherings[x]
  {
    hide Lapsed;
    assert forall x :: x in order <==> x == order[0] || x in order[1..];
    forall x | x in s.gatherings ensures Lapsed(s.gatherings[x], s2.gatherings[x], now) {
      LapsedTrans(s.gatherings[x], s1.gatherings[x], s2.gatherings[x], now);
    }
  }

  /** The selection lapses some gatherings; the one it selects loses exactly the reservations run out. */
  lemma {:induction false} SelectLapses(s: Store, order: seq<u32>, src: MatchmakeSession, pid: Pid,
                                        classes: NatMap, now: int)
    requires (forall g :: g in order ==> g in s.gatherings) && NoRepeats(order)
    ensures var (s1, g) := Select(s, order, src, pid, classes, now);
            && LapsedAll(s, s1, order, now)
            && (g.Some? ==> && g.value in order && g.value in s.gatherings
                            && s1.gatherings[g.value] == Expire(s.gatherings[g.value], now))
    decreases |order|
  {
    hide HasRoom;
    hide Reaches;
    hide Candidate;
    hide Expire;
    hide Lapsed;
    LapsedSelf(s, now);
    if order == [] {
    } else {
      var gid, rest := order[0], order[1..];
      assert gid in order && forall g :: g in rest ==> g in order;
      assert gid !in rest;
      PutLapses(s, gid, now);
      var l := s.gatherings[gid];
      var s1 := if Candidate(l, src) then Put(s, gid, Expire(l, now)) else s;
      assert LapsedAll(s, s1, [gid], now);
      hide Put;
      if Candidate(l, src) && HasRoom(Expire(l, now)) && Reaches(classes, pid, Expire(l, now).participants) {
      } else {
        SelectLapses(s1, rest, src, pid, classes, now);
        LapsedMore(s, s1, Select(s1, rest, src, pid, classes, now).0, order, now);
      }
    }
  }

  /** The caller of this auto-match enters the i-th gathering of the order: no earlier one is open to it. */
  predicate Enters(s: Store, op: Op, i: nat)
    requires op.OpAuto?
  {
    && !op.solo && (forall g :: g in op.order ==> g in s.gatherings)
    && i < |op.order| && Enterable(s.gatherings[op.order[i]], op.src, op.pid, op.classes, op.now)
    && (forall j :: 0 <= j < i ==> !Enterable(s.gatherings[op.order[j]], op.src, op.pid, op.classes, op.now))
  }

  /** The caller opens a gathering of its own: it is to be alone, or no gathering is open to it. */
  predicate Opens(s: Store, op: Op)
    requires op.OpAuto?
  {
    op.solo || forall g :: g in s.gatherings ==> !Enterable(s.gatherings[g], op.src, op.pid, op.classes, op.now)
  }

  /** What entering makes of the gathering: the caller is a member if it was one or commits in time. */
  ghost predicate Entered(l: Lobby, l': Lobby, op: Op, ttl: int)
    requires op.OpAuto?
  {
    && l'.participants == l.participants
                        + (if op.pid !in l.participants && op.now'' < op.now' + ttl then [op.pid] else [])
    && SameButSeats(l, l')
    && (forall p :: p in l'.reservations <==>
          && p in l.reservations && l.reservations[p] > op.now
          && (op.pid !in l.participants ==> p != op.pid && l.reservations[p] > op.now'))
    && (forall p :: p in l'.reservations && p in l.reservations ==> l'.reservations[p] == l.reservations[p])
  }

  /** One gathering is entered, every other at most lapses. */
  ghost predicate EnteredOnly(s: Store, s': Store, op: Op, g: u32)
    requires op.OpAuto?
  {
    && s'.gatherings.Keys == s.gatherings.Keys && g in s.gatherings
    && Entered(s.gatherings[g], s'.gatherings[g], op, s.ttl)
    && (forall x :: x in s.gatherings && x != g ==> Lapsed(s.gatherings[x], s'.gatherings[x], op.now))
  }

  lemma SeatEnters(l: Lobby, op: Op, ttl: int)
    requires LobbyOk(l) && op.OpAuto? && Seat(Expire(l, op.now), op.pid, op.now', op.now'', ttl).1
    ensures Entered(l, Seat(Expire(l, op.now), op.pid, op.now', op.now'', ttl).0, op, ttl)
  {
    hide LobbyOk;
    hide Expire;
    hide Seat;
    hide Taken;
    hide Enterable;
    var l1 := Expire(l, op.now);
    ExpireExactly(l, op.now);
    ExpireOk(l, op.now);
    hide Thinned;
    SeatExactly(l1, op.pid, op.now', op.now'', ttl);
    var l' := Seat(l1, op.pid, op.now', op.now'', ttl).0;
    assert SameButSeats(l, l');
    hide SameButSeats;
  }

  /** The gathering selected is the one the caller enters. */
  lemma SelectEnters(s: Store, op: Op) returns (i: nat)
    requires Ok(s) && Enabled(s, op) && op.OpAuto? && !op.solo
    requires Select(s, op.order, op.src, op.pid, op.classes, op.now).1.Some?
    ensures Enters(s, op, i) && Select(s, op.order, op.src, op.pid, op.classes, op.now).1 == Some(op.order[i])
  {
    hide LobbyOk;
    hide Select;
    hide Fits;
    hide Enterable;
    SelectFirst(s, op.order, op.src, op.pid, op.classes, op.now);
    var g := Select(s, op.order, op.src, op.pid, op.classes, op.now).1;
    i :| FirstFit(s, op.order, op.src, op.pid, op.classes, op.now, i) && op.order[i] == g.value;
    forall j | 0 <= j <= i
      ensures op.order[j] in s.gatherings
              && (Fits(s.gatherings[op.order[j]], op.src, op.pid, op.classes, op.now) <==>
                    Enterable(s.gatherings[op.order[j]], op.src, op.pid, op.classes, op.now))
    {
      FitsEnterable(s.gatherings[op.order[j]], op.src, op.pid, op.classes, op.now);
    }
  }

  lemma AutoEnters(s: Store, op: Op) returns (i: nat)
    requires Ok(s) && Enabled(s, op) && op.OpAuto? && !op.solo
    requires Select(s, op.order, op.src, op.pid, op.classes, op.now).1.Some?
    ensures Enters(s, op, i) && EnteredOnly(s, Apply(s, op), op, op.order[i])
    ensures var s' := Apply(s, op); s'.nextGID == s.nextGID && s'.byCode == s.byCode && s'.ttl == s.ttl
  {
    hide LobbyOk;
    hide Select;
    hide Seat;
    hide Create;
    hide Expire;
    hide Lapsed;
    hide Entered;
    FallbackUnreachable(s, op.pid, op.conn, op.src, op.draw, op.solo, op.classes, op.order, op.now, op.now', op.now'');
    SelectLapses(s, op.order, op.src, op.pid, op.classes, op.now);
    AutoApplied(s, op);
    hide Apply;
    i := SelectEnters(s, op);
    hide Enters;
    SeatEnters(s.gatherings[op.order[i]], op, s.ttl);
  }

  /** The caller is alone in a new gathering of its game mode, every other at most lapses. */
  predicate OpenedOnly(s: Store, s': Store, op: Op)
    requires op.OpAuto?
  {
    && s'.gatherings.Keys == s.gatherings.Keys + {s.nextGID}
    && s'.gatherings[s.nextGID].participants == [op.pid] && s'.gatherings[s.nextGID].reservations == map[]
    && s'.gatherings[s.nextGID].session.gameMode == op.src.gameMode
    && s'.gatherings[s.nextGID].session.gathering.minParticipants
       == (if op.solo then 1 else op.src.gathering.minParticipants)
    && (forall x :: x in s.gatherings && x != s.nextGID ==> Lapsed(s.gatherings[x], s'.gatherings[x], op.now))
  }

  lemma SoloOpens(s: Store, op: Op)
    requires Enabled(s, op) && op.OpAuto? && op.solo
    ensures OpenedOnly(s, Apply(s, op), op)
    ensures var s' := Apply(s, op);
            s'.nextGID == (s.nextGID + 1) % 0x1_0000_0000 && s'.byCode == s.byCode && s'.ttl == s.ttl
  {
    hide Enterable;
    LapsedSelf(s, op.now);
    hide Lapsed;
  }

  lemma NoneFits(s: Store, op: Op)
    requires Ok(s) && Enabled(s, op) && op.OpAuto?
    requires Select(s, op.order, op.src, op.pid, op.classes, op.now).1.None?
    ensures Opens(s, op)
  {
    hide LobbyOk;
    hide Select;
    hide Fits;
    hide Enterable;
    SelectFirst(s, op.order, op.src, op.pid, op.classes, op.now);
    forall g | g in s.gatherings
      ensures !Enterable(s.gatherings[g], op.src, op.pid, op.classes, op.now)
    {
      assert g in op.order;
      var k :| 0 <= k < |op.order| && op.order[k] == g;
      FitsEnterable(s.gatherings[op.order[k]], op.src, op.pid, op.classes, op.now);
    }
  }

  lemma CreatedAlone(s: Store, pid: Pid, conn: u32, src: MatchmakeSession, d: Draw)
    ensures var s' := Create(s, pid, conn, src, d);
            && s'.gatherings.Keys == s.gatherings.Keys + {s.nextGID}
            && s'.nextGID == (s.nextGID + 1) % 0x1_0000_0000 && s'.byCode == s.byCode && s'.ttl == s.ttl
            && (forall g :: g in s.gatherings && g != s.nextGID ==> s'.gatherings[g] == s.gatherings[g])
            && var l := s'.gatherings[s.nextGID];
               && l.participants == [pid] && l.reservations == map[] && l.session.gameMode == src.gameMode
               && l.session.gathering.minParticipants == src.gathering.minParticipants
  {
  }

  lemma AutoOpens(s: Store, op: Op)
    requires Enabled(s, op) && op.OpAuto? && !op.solo
    requires Select(s, op.order, op.src, op.pid, op.classes, op.now).1.None?
    ensures OpenedOnly(s, Apply(s, op), op)
    ensures var s' := Apply(s, op);
            s'.nextGID == (s.nextGID + 1) % 0x1_0000_0000 && s'.byCode == s.byCode && s'.ttl == s.ttl
  {
    hide Select;
    hide Lapsed;
    hide Create;
    hide Seat;
    AutoApplied(s, op);
    hide Apply;
    SelectLapses(s, op.order, op.src, op.pid, op.classes, op.now);
    CreatedAlone(Select(s, op.order, op.src, op.pid, op.classes, op.now).0, op.pid, op.conn, op.src, op.draw);
  }

  lemma AutoApplied(s: Store, op: Op)
    requires Enabled(s, op) && op.OpAuto?
    ensures Apply(s, op) == AutoMatchmake(s, op.pid, op.conn, op.src, op.draw, op.solo, op.classes, op.order,
                                          op.now, op.now', op.now'').store
  {
    hide AutoMatchmake;
  }

  /** What an auto-match does. The caller opens a gathering under the next id exactly when it is to be alone or no
      gathering is open to it; otherwise it enters the first that is. Nothing else happens to any gathering but
      that reservations which have run out are dropped. */
  lemma AutoExactly(s: Store, op: Op)
    requires Ok(s) && Enabled(s, op) && op.OpAuto?
    ensures var s' := Apply(s, op);
            && s'.byCode == s.byCode && s'.ttl == s.ttl
            && (if Opens(s, op) then
                  s'.nextGID == (s.nextGID + 1) % 0x1_0000_0000 && OpenedOnly(s, s', op)
                else
                  && s'.nextGID == s.nextGID
                  && exists i: nat :: Enters(s, op, i) && EnteredOnly(s, s', op, op.order[i]))
  {
    hide Apply;
    hide Select;
    hide Lapsed;
    hide EnteredOnly;
    hide Enterable;
    hide Ok;
    hide OpenedOnly;
    if op.solo {
      SoloOpens(s, op);
    } else if Select(s, op.order, op.src, op.pid, op.classes, op.now).1.None? {
      AutoOpens(s, op);
      NoneFits(s, op);
    } else {
      var i := AutoEnters(s, op);
      assert Enterable(s.gatherings[op.order[i]], op.src, op.pid, op.classes, op.now);
      assert !Opens(s, op);
    }
  }

  /** In particular, a caller found in a gathering that was there without it asked for its game mode, found it
      open, without a password and with a seat left, and may meet everyone in it. */
  lemma EntersOnlyEnterable(s: Store, op: Op, g: u32)
    requires Ok(s) && Enabled(s, op) && op.OpAuto? && g in s.gatherings && g != s.nextGID
    requires op.pid !in s.gatherings[g].participants
    requires g in Apply(s, op).gatherings && op.pid in Apply(s, op).gatherings[g].participants
    ensures !op.solo
    ensures var l := s.gatherings[g];
            && l.session.gameMode == op.src.gameMode && l.session.openParticipation && !l.session.userPasswordEnabled
            && |l.participants| + |Holders(l, op.now)| < l.session.gathering.maxParticipants
            && (forall m :: m in l.participants && m != op.pid ==> MayMeet(op.classes, op.pid, m))
  {
    hide Apply;
    hide Enabled;
    hide Ok;
    hide MayMeet;
    hide Holders;
    AutoExactly(s, op);
    var s' := Apply(s, op);
    hide Entered;
    hide Lapsed;
    if Opens(s, op) {
      SameMembers(s, s', op, g);
    } else {
      var i: nat :| Enters(s, op, i) && EnteredOnly(s, s', op, op.order[i]);
      if g != op.order[i] { SameMembers(s, s', op, g); }
    }
  }

  lemma SameMembers(s: Store, s': Store, op: Op, g: u32)
    requires op.OpAuto? && g in s.gatherings && g in s'.gatherings
    requires Lapsed(s.gatherings[g], s'.gatherings[g], op.now)
    ensures s'.gatherings[g].participants == s.gatherings[g].participants
  {
  }

  // ---- creation -----------------------------------------------------------

  /** A new gathering is the caller's, holds the caller alone, and keeps what the client asked for but for the
      fields the server owns. */
  lemma CreatedExactly(s: Store, pid: Pid, conn: u32, src: MatchmakeSession, d: Draw)
    ensures var s' := Create(s, pid, conn, src, d);
            && s' == s.(gatherings := s'.gatherings, nextGID := (s.nextGID + 1) % 0x1_0000_0000)
            && s'.gatherings.Keys == s.gatherings.Keys + {s.nextGID}
            && (forall g :: g in s.gatherings && g != s.nextGID ==> s'.gatherings[g] == s.gatherings[g])
            && var l := s'.gatherings[s.nextGID];
               var m := l.session;
               && l.participants == [pid] && l.reservations == map[] && l.code == [] && l.hostConn == conn
               && m.gathering.id == s.nextGID && m.gathering.ownerPID == pid && m.gathering.hostPID == pid
               && (if src.gathering.maxParticipants == 0 then m.gathering.maxParticipants == 12
                   else m.gathering.maxParticipants == src.gathering.maxParticipants)
               && m.numParticipants == 1 && m.sessionKey == d.sessionKey && m.startedTime == d.startedTime
               && !m.systemPasswordEnabled
               && (d.open ==> m.openParticipation && !m.userPasswordEnabled && m.gathering.state == 1)
               && (!d.open ==> && m.openParticipation == src.openParticipation
                               && m.userPasswordEnabled == src.userPasswordEnabled
                               && m.gathering.state == src.gathering.state)
               && src.attribs <= m.attribs && |m.attribs| >= 6
               && (|m.attribs| > |src.attribs| ==> |m.attribs| == 6)
               && (forall k :: |src.attribs| <= k < |m.attribs| ==> m.attribs[k] == 0)
               && m.params.Keys == src.params.Keys + {[0x40, 0x53, 0x52], [0x40, 0x47, 0x49, 0x52]}
               && m.params[[0x40, 0x53, 0x52]] == VBool(true) && m.params[[0x40, 0x47, 0x49, 0x52]] == VInt(3)
               && (forall k :: k in src.params && k !in {[0x40, 0x53, 0x52], [0x40, 0x47, 0x49, 0x52]} ==>
                     m.params[k] == src.params[k])
               && m.gameMode == src.gameMode && m.matchmakeSystem == src.matchmakeSystem
               && m.applicationData == src.applicationData && m.progressScore == src.progressScore
               && m.option == src.option && m.userPassword == src.userPassword && m.referGID == src.referGID
               && m.codeword == src.codeword
               && m.gathering == src.gathering.(id := m.gathering.id, ownerPID := pid, hostPID := pid,
                                                maxParticipants := m.gathering.maxParticipants,
                                                state := m.gathering.state)
  {
    assert KEY_SR != KEY_GIR by { assert KEY_SR[1] != KEY_GIR[1]; }
  }

  // ---- leaving ------------------------------------------------------------

  /** The members but one, in their order. */
  predicate Others(ps: seq<Pid>, pid: Pid, qs: seq<Pid>) {
    if pid in ps then exists i :: 0 <= i < |ps| && ps[i] == pid && qs == ps[..i] + ps[i + 1..] else qs == ps
  }

  lemma {:induction false} WithoutOthers(ps: seq<Pid>, pid: Pid)
    requires Distinct(ps)
    ensures Others(ps, pid, Without(ps, pid))
  {
    if ps == [] {
    } else {
      var head, more := ps[0], ps[1..];
      assert ps == [head] + more && head !in more && Distinct(more);
      hide Distinct;
      if head == pid {
        WithoutFacts(more, pid);
        assert ps[0] == pid && ps[..0] + more == more;
      } else {
        WithoutOthers(more, pid);
        var qs := Without(more, pid);
        assert Without(ps, pid) == [head] + qs;
        hide Without;
        OneLater(head, more, pid, qs);
      }
    }
  }

  lemma OneLater(head: Pid, more: seq<Pid>, pid: Pid, qs: seq<Pid>)
    requires Others(more, pid, qs) && head != pid
    ensures Others([head] + more, pid, [head] + qs)
  {
    var ps := [head] + more;
    if pid in more {
      var i :| 0 <= i < |more| && more[i] == pid && qs == more[..i] + more[i + 1..];
      CutLater(head, more, i);
      assert ps[i + 1] == pid;
    }
  }

  lemma CutLater(head: Pid, more: seq<Pid>, i: nat)
    requires i < |more|
    ensures var ps := [head] + more; [head] + (more[..i] + more[i + 1..]) == ps[..i + 1] + ps[i + 2..]
  {
    var ps := [head] + more;
    assert ps[..i + 1] == [head] + more[..i];
    assert ps[i + 2..] == more[i + 1..];
  }

  /** Nobody but the player is in the gathering. */
  predicate OnlyMember(l: Lobby, pid: Pid) { forall m :: m in l.participants ==> m == pid }

  /** The code leads to a gathering that the player's disconnect removes. */
  predicate CodeGoes(s: Store, pid: Pid, code: bytes) {
    exists g :: g in s.gatherings && s.gatherings[g].code == code && code != []
                && pid in s.gatherings[g].participants
                && (s.gatherings[g].session.gathering.ownerPID == pid || OnlyMember(s.gatherings[g], pid))
  }

  /** A disconnect drops exactly the codes of the gatherings it removes. */
  lemma DisconnectCodes(s: Store, pid: Pid, code: bytes)
    requires Ok(s) && pid != 0
    ensures var s' := RemovePlayer(s, pid);
            && (code in s'.byCode <==> code in s.byCode && !CodeGoes(s, pid, code))
            && (code in s'.byCode ==> s'.byCode[code] == s.byCode[code])
  {
    hide LobbyOk;
    forall g | g in s.gatherings
      ensures Without(s.gatherings[g].participants, pid) == [] <==> OnlyMember(s.gatherings[g], pid)
    {
      LeftAlone(s.gatherings[g], pid);
    }
    hide OnlyMember;
    hide Without;
  }

  /** The gathering after the player has left it. */
  predicate Departed(l: Lobby, l': Lobby, pid: Pid) {
    && Others(l.participants, pid, l'.participants)
    && SameButSeats(l, l')
    && l'.reservations == map p | p in l.reservations && p != pid :: l.reservations[p]
  }

  lemma LeftAlone(l: Lobby, pid: Pid)
    requires LobbyOk(l)
    ensures Without(l.participants, pid) == [] <==> OnlyMember(l, pid)
  {
    var ps := Without(l.participants, pid);
    WithoutFacts(l.participants, pid);
    assert l.participants[0] in l.participants;
    if ps != [] { assert ps[0] in ps; }
  }

  lemma FewerMembers(l: Lobby, pid: Pid)
    requires LobbyOk(l)
    ensures |Without(l.participants, pid)| <= 0xFFFF
    ensures Others(l.participants, pid, Without(l.participants, pid))
  {
    WithoutFacts(l.participants, pid);
    WithoutOthers(l.participants, pid);
  }

  lemma LeaveDeparts(l: Lobby, pid: Pid)
    requires LobbyOk(l)
    ensures Departed(l, Counted(Release(l, pid).(participants := Without(l.participants, pid))), pid)
  {
    hide LobbyOk;
    hide Others;
    hide Without;
    FewerMembers(l, pid);
    assert l.reservations - {pid} == map p | p in l.reservations && p != pid :: l.reservations[p];
  }

  lemma LeaveSame(l: Lobby, pid: Pid)
    requires LobbyOk(l)
    ensures Leave(l, pid) == Counted(Release(l, pid).(participants := Without(l.participants, pid)))
  {
    WithoutFacts(l.participants, pid);
  }

  /** A disconnect removes exactly the gatherings the player owned as a member or was alone in; from every other one
      the player and its reservation are gone, and nobody else. */
  lemma DisconnectExactly(s: Store, pid: Pid, g: u32)
    requires Ok(s) && pid != 0 && g in s.gatherings
    ensures var l, s' := s.gatherings[g], RemovePlayer(s, pid);
            && (g in s'.gatherings <==>
                  pid !in l.participants || (l.session.gathering.ownerPID != pid && !OnlyMember(l, pid)))
            && (g in s'.gatherings ==> Departed(l, s'.gatherings[g], pid))
  {
    var l := s.gatherings[g];
    hide LobbyOk;
    LeftAlone(l, pid);
    LeaveSame(l, pid);
    LeaveDeparts(l, pid);
    hide Without;
    hide Leave;
    hide Departed;
    hide OnlyMember;
  }

  lemma EndApplied(s: Store, gid: u32, pid: Pid)
    requires gid in s.gatherings
    ensures var s' := Apply(s, OpEnd(gid, pid));
            && (gid in s'.gatherings <==> End(s.gatherings[gid], pid).Some?)
            && (gid in s'.gatherings ==> s'.gatherings[gid] == End(s.gatherings[gid], pid).value)
            && (forall g :: g in s.gatherings && g != gid ==> g in s'.gatherings && s'.gatherings[g] == s.gatherings[g])
  {
    hide End;
  }

  /** Ending a participation removes exactly a gathering left without members. */
  lemma EndExactly(s: Store, gid: u32, pid: Pid)
    requires Ok(s) && gid in s.gatherings
    ensures var l, s' := s.gatherings[gid], Apply(s, OpEnd(gid, pid));
            && (gid in s'.gatherings <==> !OnlyMember(l, pid))
            && (gid in s'.gatherings ==> Departed(l, s'.gatherings[gid], pid))
            && (forall g :: g in s.gatherings && g != gid ==> g in s'.gatherings && s'.gatherings[g] == s.gatherings[g])
  {
    hide LobbyOk;
    hide End;
    hide Apply;
    hide Departed;
    hide OnlyMember;
    EndApplied(s, gid, pid);
    EndLeaves(s.gatherings[gid], pid);
  }

  lemma EndLeaves(l: Lobby, pid: Pid)
    requires LobbyOk(l)
    ensures End(l, pid).None? <==> OnlyMember(l, pid)
    ensures End(l, pid).Some? ==> Departed(l, End(l, pid).value, pid)
  {
    hide LobbyOk;
    LeftAlone(l, pid);
    LeaveDeparts(l, pid);
    hide Without;
    hide Departed;
    hide OnlyMember;
  }

  // ---- updates ------------------------------------------------------------

  /** Only the owner's request removes a gathering, and it removes nothing else. */
  lemma UnregisterExactly(s: Store, gid: u32, pid: Pid)
    ensures var s' := Apply(s, OpUnregister(gid, pid));
            forall g :: (g in s'.gatherings <==>
                           g in s.gatherings && !(g == gid && s.gatherings[g].session.gathering.ownerPID == pid))
                        && (g in s'.gatherings ==> s'.gatherings[g] == s.gatherings[g])
  {
  }

  /** A partial update writes a code or the open flag if told to, any other field if it brings a value, and touches
      neither members nor reservations. */
  lemma PartExactly(l: Lobby, p: Part)
    ensures var l' := ApplyPart(l, p);
            var m, m' := l.session, l'.session;
            && l'.participants == l.participants && l'.reservations == l.reservations && l'.hostConn == l.hostConn
            && (HasBit(p.flags, 0x4000) || p.codeword != [] ==> l'.code == p.codeword && m'.codeword == p.codeword)
            && (!HasBit(p.flags, 0x4000) && p.codeword == [] ==> l'.code == l.code && m'.codeword == m.codeword)
            && (HasBit(p.flags, 0x2) ==> m'.openParticipation == p.open)
            && (!HasBit(p.flags, 0x2) ==> m'.openParticipation == m.openParticipation)
            && m'.attribs == (if p.attributes == [] then m.attribs else p.attributes)
            && m'.applicationData == (if p.buffer == [] then m.applicationData else p.buffer)
            && m'.gameMode == (if p.gameMode == 0 then m.gameMode else p.gameMode)
            && m'.gathering == m.gathering.(
                 maxParticipants := if p.maxParticipants == 0 then m.gathering.maxParticipants else p.maxParticipants)
            && m' == m.(codeword := m'.codeword, openParticipation := m'.openParticipation, attribs := m'.attribs,
                        applicationData := m'.applicationData, gameMode := m'.gameMode, gathering := m'.gathering)
  {
    hide HasBit;
  }

  /** Setting an attribute writes that one, and fills what is missing before it with zeros. */
  lemma AttributeExactly(attribs: seq<u32>, index: u32, value: u32)
    requires index < 0xFFFF_FFFF && |attribs| <= 0xFFFF_FFFF
    ensures var r := SetAttribute(attribs, index, value);
            && |r| == (if index < |attribs| then |attribs| else index as int + 1) && r[index] == value
            && (forall k :: 0 <= k < |r| && k != index ==> r[k] == if k < |attribs| then attribs[k] else 0)
  {
  }

  /** Attributes and buffer are the first member's to write. */
  lemma HostWrites(s: Store, op: Op)
    requires Ok(s) && Enabled(s, op) && (op.OpBuffer? || op.OpAttribute?) && op.gid in s.gatherings
    ensures var l, s' := s.gatherings[op.gid], Apply(s, op);
            && (op.pid != l.participants[0] ==> s' == s)
            && (op.pid == l.participants[0] && op.OpBuffer? ==>
                  s'.gatherings[op.gid].session == l.session.(applicationData := op.buffer))
            && (op.pid == l.participants[0] && op.OpAttribute? ==>
                  s'.gatherings[op.gid].session
                  == l.session.(attribs := SetAttribute(l.session.attribs, op.index, op.value)))
  {
    hide SetAttribute;
    assert LobbyOk(s.gatherings[op.gid]);
    assert s.gatherings[op.gid := s.gatherings[op.gid]] == s.gatherings;
  }

  /** A code written by a partial update of a known gathering, or assigned, leads to that gathering; every other code
      leads where it did. */
  lemma CodesExactly(s: Store, op: Op)
    requires op.OpPart? || op.OpCode?
    ensures var code := if op.OpPart? then op.part.codeword else op.code;
            var gid := if op.OpPart? then op.part.gid else op.gid;
            var written := op.OpCode? || (code != [] && gid in s.gatherings);
            var s' := Apply(s, op);
            && (written ==> code in s'.byCode && s'.byCode[code] == gid)
            && (forall c :: c != code || !written ==> (c in s'.byCode <==> c in s.byCode))
            && (forall c :: (c != code || !written) && c in s.byCode ==> s'.byCode[c] == s.byCode[c])
            && (op.OpCode? && gid in s.gatherings ==> gid in s'.gatherings && s'.gatherings[gid].code == code)
  {
    hide ApplyPart;
  }

  /** No other operation but a disconnect changes where codes lead. */
  lemma CodesKept(s: Store, op: Op)
    requires Ok(s) && Enabled(s, op) && !op.OpPart? && !op.OpCode? && !op.OpDisconnect?
    ensures Apply(s, op).byCode == s.byCode
  {
    if op.OpAuto? {
      hide Apply;
      hide Ok;
      hide Enabled;
      hide Opens;
      hide Enters;
      hide EnteredOnly;
      hide OpenedOnly;
      AutoExactly(s, op);
    } else if Target(op).Some? {
      hide Ok;
      LocalCodes(s, op);
      hide ApplyLocal;
    } else {
      hide Ok;
      hide Finalize;
    }
  }

  lemma LocalCodes(s: Store, op: Op)
    requires Target(op).Some? && !op.OpPart? && !op.OpCode?
    ensures ApplyLocal(s, op).byCode == s.byCode
  {
    hide Touch;
  }

  /** Seats are held for the time set, 8 seconds where that is at or below zero. */
  lemma TtlExactly(s: Store, ttl: int)
    ensures Apply(s, OpSetTtl(ttl)) == s.(ttl := if ttl > 0 then ttl else 8_000_000_000)
    ensures NewStore().ttl == 8_000_000_000
  {
  }
}
