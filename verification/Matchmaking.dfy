/** The matchmaking store as it is: gathering objects updated in place behind a map
    (nextendo-nex/matchmaking_handlers.go, matchmaking_reservations.go, matchmaking_acnh.go).

    `store` is the abstract value of the object graph; every method is proved against the
    functions of module MatchStore.
 */
module Matchmaking {
  import opened Bytes
  import opened Session
  import opened MatchStore
  import opened MatchInvariants
  import opened MatchRuns

  // ---- lists of players ---------------------------------------------------

  method ContainsPid(list: seq<Pid>, pid: Pid) returns (found: bool)
    ensures found <==> pid in list
  {
    for i := 0 to |list|
      invariant pid !in list[..i]
    {
      if list[i] == pid { return true; }
    }
    return false;
  }

  lemma {:induction false} WithoutSnoc(ps: seq<Pid>, pid: Pid, last: Pid)
    ensures Without(ps + [last], pid) == Without(ps, pid) + (if last == pid then [] else [last])
  {
    if ps == [] {
    } else {
      WithoutSnoc(ps[1..], pid, last);
      assert (ps + [last])[1..] == ps[1..] + [last];
      assert (ps + [last])[0] == ps[0];
    }
  }

  method RemovePid(list: seq<Pid>, pid: Pid) returns (out: seq<Pid>)
    ensures out == Without(list, pid)
  {
    out := [];
    for i := 0 to |list|
      invariant out == Without(list[..i], pid)
    {
      assert list[..i + 1] == list[..i] + [list[i]];
      WithoutSnoc(list[..i], pid, list[i]);
      if list[i] != pid { out := out + [list[i]]; }
    }
    assert list[..|list|] == list;
  }

  /** Whether the caller can reach every member it would be placed with. */
  method ReachesAll(classes: NatMap, pid: Pid, members: seq<Pid>) returns (ok: bool)
    ensures ok <==> Reaches(classes, pid, members)
  {
    var joiner := ClassOf(classes, pid);
    for i := 0 to |members|
      invariant Reaches(classes, pid, members[..i])
    {
      if members[i] != pid && !Compatible(joiner, ClassOf(classes, members[i])) {
        assert members[i] in members;
        return false;
      }
    }
    assert members[..|members|] == members;
    return true;
  }

  method FinalizeCreated(src: MatchmakeSession, gid: u32, owner: Pid, d: Draw) returns (m: MatchmakeSession)
    ensures m == Finalize(src, gid, owner, d)
  {
    var g := src.gathering.(id := gid, ownerPID := owner, hostPID := owner);
    if g.maxParticipants == 0 { g := g.(maxParticipants := 12); }
    m := src.(numParticipants := 1, sessionKey := d.sessionKey, startedTime := d.startedTime,
              systemPasswordEnabled := false);
    if d.open {
      g := g.(state := 1);
      m := m.(userPasswordEnabled := false, openParticipation := true);
    }
    var attribs := m.attribs;
    while |attribs| < 6
      invariant |src.attribs| <= |attribs|
      invariant attribs == if |src.attribs| >= |attribs| then src.attribs
                           else src.attribs + seq(|attribs| - |src.attribs|, _ => 0)
      invariant |attribs| <= 6 || attribs == src.attribs
    {
      attribs := attribs + [0];
    }
    m := m.(gathering := g, attribs := attribs, params := m.params[KEY_SR := VBool(true)]);
    m := m.(params := m.params[KEY_GIR := VInt(3)]);
  }

  // ---- one gathering ------------------------------------------------------

  class LiveGathering {
    var session: MatchmakeSession
    var participants: seq<Pid>
    var hostConn: u32
    var code: bytes
    var reservations: map<Pid, int>

    function View(): Lobby
      reads this
    {
      Lobby(session, participants, hostConn, code, reservations)
    }

    constructor (session: MatchmakeSession, pid: Pid, conn: u32)
      ensures View() == Lobby(session, [pid], conn, [], map[])
    {
      this.session, participants, hostConn, code, reservations := session, [pid], conn, [], map[];
    }

    method ExpireReservations(now: int)
      modifies this`reservations
      ensures View() == Expire(old(View()), now)
    {
      ghost var start := reservations;
      var todo := reservations.Keys;
      while todo != {}
        invariant todo <= start.Keys
        invariant reservations == map p | p in start && (p in todo || now < start[p]) :: start[p]
        decreases todo
      {
        var pid :| pid in todo;
        if now >= reservations[pid] { reservations := reservations - {pid}; }
        todo := todo - {pid};
      }
    }

    method OccupiedSeats(now: int) returns (n: nat)
      modifies this`reservations
      ensures View() == Expire(old(View()), now) && n == Occupied(View())
    {
      ExpireReservations(now);
      n := |participants| + |reservations|;
    }

    method ReserveJoin(pid: Pid, now: int, ttl: int) returns (ok: bool)
      modifies this`reservations
      ensures (View(), ok) == Reserve(old(View()), pid, now, ttl)
    {
      var member := ContainsPid(participants, pid);
      if member {
        reservations := reservations - {pid};
        return true;
      }
      ExpireReservations(now);
      if pid in reservations {
        reservations := reservations[pid := now + ttl];
        return true;
      }
      if session.gathering.maxParticipants > 0
         && |participants| + |reservations| >= session.gathering.maxParticipants { return false; }
      reservations := reservations[pid := now + ttl];
      return true;
    }

    method CommitReservedJoin(pid: Pid, now: int) returns (joined: bool)
      modifies this`reservations, this`participants
      ensures (View(), joined) == Commit(old(View()), pid, now)
    {
      var member := ContainsPid(participants, pid);
      if member {
        reservations := reservations - {pid};
        return false;
      }
      if pid !in reservations || now >= reservations[pid] {
        reservations := reservations - {pid};
        return false;
      }
      reservations := reservations - {pid};
      participants := participants + [pid];
      return true;
    }

    method Count()
      modifies this`session
      ensures View() == Counted(old(View()))
    {
      session := session.(numParticipants := |participants| % 0x1_0000_0000);
    }

    /** The seat of a joining player: reservation, commit and count. */
    method TakeSeat(pid: Pid, now: int, now': int, ttl: int) returns (ok: bool, joined: bool)
      modifies this
      ensures (View(), ok) == Seat(old(View()), pid, now, now', ttl)
      ensures participants == if joined then old(participants) + [pid] else old(participants)
      ensures ok ==> session.numParticipants == |participants| % 0x1_0000_0000
    {
      ok := ReserveJoin(pid, now, ttl);
      joined := false;
      if ok {
        joined := CommitReservedJoin(pid, now');
        Count();
      }
    }

    /** The first candidate found among the members trades places with the first member. */
    method MigrateTo(candidates: seq<Pid>)
      modifies this`participants
      ensures View() == Migrate(old(View()), candidates)
    {
      var migrated := false;
      var i := 0;
      while i < |candidates| && !migrated
        invariant 0 <= i <= |candidates|
        invariant !migrated ==> participants == old(participants)
                                && FirstMember(candidates, participants) == FirstMember(candidates[i..], participants)
        invariant migrated ==> View() == Migrate(old(View()), candidates)
        decreases |candidates| - i, !migrated
      {
        var c := candidates[i];
        assert candidates[i..][1..] == candidates[i + 1..];
        for j := 0 to |participants|
          invariant participants == old(participants) && !migrated
          invariant c !in participants[..j]
        {
          if participants[j] == c {
            assert IndexOf(participants, c) == j;
            participants := participants[j := participants[0]][0 := c];
            migrated := true;
            break;
          }
        }
        i := i + 1;
      }
      assert candidates[|candidates|..] == [];
    }

    /** Drops the player's seat; tells whether the player was a member. */
    method Drop(pid: Pid) returns (left: bool)
      modifies this`reservations, this`participants
      ensures View() == Release(old(View()), pid).(participants := Without(old(participants), pid))
      ensures left <==> |participants| != |old(participants)|
    {
      reservations := reservations - {pid};
      var before := |participants|;
      participants := RemovePid(participants, pid);
      left := |participants| != before;
    }

    method ApplyPart(p: Part)
      modifies this`session, this`code
      ensures View() == MatchStore.ApplyPart(old(View()), p)
    {
      hide HasBit;
      var g := session.gathering;
      if p.maxParticipants != 0 { g := g.(maxParticipants := p.maxParticipants); }
      var open, mode := session.openParticipation, session.gameMode;
      if HasBit(p.flags, FLAG_OPEN) { open := p.open; }
      if p.gameMode != 0 { mode := p.gameMode; }
      var attribs, data := session.attribs, session.applicationData;
      if p.attributes != [] { attribs := p.attributes; }
      if p.buffer != [] { data := p.buffer; }
      var word := session.codeword;
      if WritesCode(p) {
        word := p.codeword;
        code := p.codeword;
      }
      session := session.(codeword := word, attribs := attribs, applicationData := data, gameMode := mode,
                          openParticipation := open, gathering := g);
    }

    method SetOpen(open: bool)
      modifies this`session
      ensures View() == old(View()).(session := old(session).(openParticipation := open))
    {
      session := session.(openParticipation := open);
    }

    method SetCode(code: bytes)
      modifies this`code
      ensures View() == old(View()).(code := code)
    {
      this.code := code;
    }

    method SetMinParticipants(n: u16)
      modifies this`session
      ensures View() == old(View()).(session := old(session).(
                          gathering := old(session).gathering.(minParticipants := n)))
    {
      session := session.(gathering := session.gathering.(minParticipants := n));
    }

    method SetBuffer(buffer: bytes)
      modifies this`session
      ensures View() == old(View()).(session := old(session).(applicationData := buffer))
    {
      session := session.(applicationData := buffer);
    }

    /** Writes one attribute, growing the list with zeros first. `ended` tells whether the growth ends. */
    method SetAttribute(index: u32, value: u32) returns (ended: bool)
      modifies this`session
      ensures ended <==> exists n: nat :: |old(session).attribs| <= n && !Growing(n, index)
      ensures ended ==> View() == old(View()).(session := old(session).(
                          attribs := MatchStore.SetAttribute(old(session).attribs, index, value)))
      ensures !ended ==> View() == old(View())
    {
      GrowthEndsExactly(|session.attribs|, index);
      if index == LAST_INDEX { return false; }
      ended := true;
      var attribs := session.attribs;
      ghost var start, n := |attribs|, Growth(|attribs|, index);
      while |attribs| % 0x1_0000_0000 <= index
        invariant session == old(session) && start <= |attribs| <= start + n
        invariant attribs == session.attribs + Zeros(|attribs| - start)
        decreases start + n - |attribs|
      {
        StillGrowing(start, index, |attribs| - start);
        assert Zeros(|attribs| - start) + [0] == Zeros(|attribs| + 1 - start);
        attribs := attribs + [0];
      }
      StillGrowing(start, index, |attribs| - start);
      session := session.(attribs := attribs[index := value]);
    }
  }

  lemma StillGrowing(len: nat, index: u32, m: nat)
    requires index < LAST_INDEX && m <= Growth(len, index)
    ensures (len + m) % 0x1_0000_0000 <= index <==> m < Growth(len, index)
    ensures m == Growth(len, index) ==> index < len + m
  {
    GrowthCounts(len, index, m);
  }

  // ---- the store ----------------------------------------------------------

  datatype JoinReply = SessionVoid | SessionFull | Joined(session: MatchmakeSession, members: seq<Pid>)

  datatype BufferReply = NoGathering | Denied | Stored

  predicate Separate(m: map<u32, LiveGathering>) {
    forall g, h :: g in m && h in m && m[g] == m[h] ==> g == h
  }

  lemma SeparateWithout(m: map<u32, LiveGathering>, gid: u32)
    requires Separate(m)
    ensures Separate(m - {gid})
  {
  }

  lemma SeparateWith(m: map<u32, LiveGathering>, gid: u32, g: LiveGathering)
    requires Separate(m) && forall h :: h in m ==> m[h] != g
    ensures Separate(m[gid := g])
  {
  }

  class Matchmaking {
    var gatherings: map<u32, LiveGathering>
    var byCode: map<bytes, u32>
    var nextGID: u32
    var ttl: int
    const existingCount: bool
    ghost var store: Store
    ghost var owned: set<LiveGathering>
    ghost var history: seq<Op>

    /** The objects hold what the operations so far make of an empty store. */
    ghost predicate Valid()
      reads this, owned
    {
      Holds() && MatchStore.Run(history) == Some(store)
    }

    /** Each id has a gathering object of its own, and together they hold `store`. */
    ghost predicate Holds()
      reads this`gatherings, this`byCode, this`nextGID, this`ttl, this`store, this`owned, owned
    {
      && gatherings.Keys == store.gatherings.Keys
      && (forall g :: g in gatherings ==> gatherings[g] in owned && gatherings[g].View() == store.gatherings[g])
      && Separate(gatherings)
      && byCode == store.byCode && nextGID == store.nextGID && ttl == store.ttl
    }

    /** The same, but for the contents of one gathering and for the code index. */
    ghost predicate ValidApart(gid: u32)
      reads this`gatherings, this`owned, this`store, this`nextGID, this`ttl
      reads if gid in gatherings then owned - {gatherings[gid]} else owned
    {
      && gatherings.Keys == store.gatherings.Keys
      && (forall g :: g in gatherings ==> gatherings[g] in owned)
      && Separate(gatherings)
      && (forall g :: g in gatherings && g != gid ==> gatherings[g].View() == store.gatherings[g])
      && nextGID == store.nextGID && ttl == store.ttl
    }

    lemma At(gid: u32)
      requires Holds()
      ensures ValidApart(gid) && byCode == store.byCode && ttl == store.ttl && nextGID == store.nextGID
      ensures gid in gatherings <==> gid in store.gatherings
      ensures gid in gatherings ==> gatherings[gid] in owned && gatherings[gid].View() == store.gatherings[gid]
    {
    }

    lemma Unchanged(gid: u32)
      requires ValidApart(gid) && byCode == store.byCode && gid in gatherings && gid in store.gatherings
      requires gatherings[gid].View() == store.gatherings[gid]
      ensures Holds()
    {
    }

    /** Brings `store` up to date with one gathering. */
    ghost method Sync(gid: u32)
      requires ValidApart(gid) && gid in gatherings
      modifies this`store
      ensures Holds() && store == Put(old(store), gid, gatherings[gid].View()).(byCode := byCode)
    {
      hide LiveGathering.View;
      hide Separate;
      store := Put(store, gid, gatherings[gid].View()).(byCode := byCode);
    }

    /** What every run keeps holds of the objects at all times. */
    lemma Kept()
      requires Valid()
      ensures Ok(store) && (NeverWraps(history) ==> IdsBelowNext(store))
      ensures AlwaysCapped(history) <==> NeverOverbooks(history)
      ensures NeverOverbooks(history) ==> Capped(store)
      ensures forall classes ::
                (forall k :: 0 <= k < |history| ==> NatAware(history[k], classes)) ==> AllMutual(store, classes)
    {
      hide MatchStore.Run;
      hide Holds;
      hide Ok;
      hide Capped;
      hide AllMutual;
      AlwaysOk(history);
      if NeverWraps(history) { IdsAlwaysBelowNext(history); }
      NeverOverbooked(history);
      assert history[..|history|] == history;
      forall classes | forall k :: 0 <= k < |history| ==> NatAware(history[k], classes)
        ensures AllMutual(store, classes)
      {
        AlwaysMutual(history, classes);
      }
    }

    /** Notes an operation that has been carried out. */
    ghost method Log(op: Op, before: Store)
      requires Holds() && MatchStore.Run(history) == Some(before)
      requires Enabled(before, op) && store == Apply(before, op)
      modifies this`history
      ensures Valid() && history == old(history) + [op]
    {
      hide Holds;
      hide Apply;
      hide Enabled;
      assert (history + [op])[..|history|] == history;
      history := history + [op];
    }

    /** The same after an operation on that gathering. */
    ghost method Record(op: Op)
      requires Enabled(store, op) && MatchStore.Run(history) == Some(store)
      requires Target(op).Some? && ValidApart(Target(op).value) && byCode == CodesAfter(store, op)
      requires Target(op).value in gatherings
      requires Target(op).value in store.gatherings
      requires Touch(store.gatherings[Target(op).value], op, store.ttl) == Some(gatherings[Target(op).value].View())
      modifies this`store, this`history
      ensures Valid() && store == Apply(old(store), op) && history == old(history) + [op]
    {
      hide MatchStore.Run;
      hide Enabled;
      hide Touch;
      hide CodesAfter;
      hide Apply;
      hide Holds;
      hide ValidApart;
      hide LiveGathering.View;
      var gid := Target(op).value;
      LocalPut(store, op, gatherings[gid].View());
      Sync(gid);
      Log(op, old(store));
    }

    /** Notes an operation that finds nothing to change. */
    ghost method Skip(op: Op)
      requires Valid() && Enabled(store, op) && Target(op).Some? && CodesAfter(store, op) == store.byCode
      requires Target(op).value in store.gatherings ==>
                 Touch(store.gatherings[Target(op).value], op, store.ttl) == Some(store.gatherings[Target(op).value])
      modifies this`history
      ensures Valid() && store == Apply(store, op) && history == old(history) + [op]
    {
      hide Holds;
      hide MatchStore.Run;
      hide Touch;
      hide CodesAfter;
      UntouchedStore(store, op);
      Log(op, store);
    }

    /** Deletes one gathering. */
    method Discard(gid: u32)
      requires ValidApart(gid) && gid in gatherings
      modifies this`store, this`gatherings
      ensures Holds() && store == old(store).(gatherings := old(store).gatherings - {gid}, byCode := byCode)
    {
      hide LiveGathering.View;
      SeparateWithout(gatherings, gid);
      hide Separate;
      gatherings := gatherings - {gid};
      store := store.(gatherings := store.gatherings - {gid}, byCode := byCode);
    }

    /** Deletes a gathering that the operation removes. */
    method Delete(gid: u32, ghost op: Op)
      requires Enabled(store, op) && MatchStore.Run(history) == Some(store)
      requires Target(op) == Some(gid) && ValidApart(gid) && byCode == CodesAfter(store, op)
      requires gid in gatherings && gid in store.gatherings
      requires Touch(store.gatherings[gid], op, store.ttl).None?
      modifies this`store, this`gatherings, this`history
      ensures Valid() && store == Apply(old(store), op) && history == old(history) + [op]
    {
      hide MatchStore.Run;
      hide Enabled;
      hide Touch;
      hide CodesAfter;
      hide Apply;
      hide Holds;
      hide ValidApart;
      LocalDelete(store, op);
      Discard(gid);
      Log(op, old(store));
    }

    constructor (existingCount: bool)
      ensures Valid() && fresh(owned) && history == [] && store == NewStore() && this.existingCount == existingCount
    {
      gatherings, byCode, nextGID, ttl := map[], map[], 1, DEFAULT_TTL;
      this.existingCount := existingCount;
      store, owned, history := NewStore(), {}, [];
    }

    method SetJoinReservationTtl(t: int)
      requires Valid()
      modifies this
      ensures Valid() && owned == old(owned) && store == Apply(old(store), OpSetTtl(t))
      ensures history == old(history) + [OpSetTtl(t)]
    {
      hide MatchStore.Run;
      ttl := if t <= 0 then DEFAULT_TTL else t;
      store := store.(ttl := ttl);
      Log(OpSetTtl(t), old(store));
    }

    method ReserveJoin(gid: u32, pid: Pid, now: int) returns (ok: bool)
      requires Valid()
      modifies this, owned
      ensures Valid() && owned == old(owned) && store == Apply(old(store), OpReserve(gid, pid, now))
      ensures ok <==> pid != 0 && gid in old(store).gatherings
                      && Reserve(old(store).gatherings[gid], pid, now, old(store).ttl).1
      ensures history == old(history) + [OpReserve(gid, pid, now)]
    {
      hide MatchStore.Run;
      hide Holds;
      hide ValidApart;
      hide Reserve;
      At(gid);
      if pid == 0 || gid !in gatherings {
        Skip(OpReserve(gid, pid, now));
        return false;
      }
      var g := gatherings[gid];
      ok := g.ReserveJoin(pid, now, ttl);
      Record(OpReserve(gid, pid, now));
    }

    method CancelJoinReservation(gid: u32, pid: Pid)
      requires Valid()
      modifies this, owned
      ensures Valid() && owned == old(owned) && store == Apply(old(store), OpCancel(gid, pid))
      ensures history == old(history) + [OpCancel(gid, pid)]
    {
      hide MatchStore.Run;
      hide Holds;
      hide ValidApart;
      At(gid);
      if gid in gatherings {
        var g := gatherings[gid];
        g.reservations := g.reservations - {pid};
        Record(OpCancel(gid, pid));
      } else {
        Skip(OpCancel(gid, pid));
      }
    }

    method CreateGathering(pid: Pid, conn: u32, src: MatchmakeSession, d: Draw) returns (g: LiveGathering)
      requires Holds()
      modifies this
      ensures Holds() && fresh(g) && owned == old(owned) + {g} && history == old(history)
      ensures store == Create(old(store), pid, conn, src, d)
      ensures old(nextGID) in gatherings && gatherings[old(nextGID)] == g
    {
      hide Finalize;
      hide LiveGathering.View;
      hide Separate;
      var gid := nextGID;
      nextGID := (nextGID + 1) % 0x1_0000_0000;
      var session := FinalizeCreated(src, gid, pid, d);
      g := new LiveGathering(session, pid, conn);
      SeparateWith(gatherings, gid, g);
      gatherings := gatherings[gid := g];
      owned := owned + {g};
      store := Create(store, pid, conn, src, d);
    }

    method JoinSession(gid: u32, pid: Pid, now: int, now': int) returns (r: JoinReply)
      requires Valid()
      modifies this, owned
      ensures Valid() && owned == old(owned) && store == Apply(old(store), OpJoin(gid, pid, now, now'))
      ensures r.SessionVoid? <==> gid !in old(store).gatherings
      ensures r.SessionFull? <==> gid in old(store).gatherings && pid !in old(store).gatherings[gid].participants
                                  && !Seat(old(store).gatherings[gid], pid, now, now', old(store).ttl).1
      ensures r.Joined? ==>
        && r.members == store.gatherings[gid].participants
        && r.session == store.gatherings[gid].session.(numParticipants :=
             (if existingCount && r.members != old(store).gatherings[gid].participants
              then |old(store).gatherings[gid].participants| else |r.members|) % 0x1_0000_0000)
      ensures history == old(history) + [OpJoin(gid, pid, now, now')]
    {
      hide MatchStore.Run;
      hide Holds;
      hide ValidApart;
      hide Seat;
      At(gid);
      if gid !in gatherings {
        Skip(OpJoin(gid, pid, now, now'));
        return SessionVoid;
      }
      var g := gatherings[gid];
      var existing := g.participants;
      var member := ContainsPid(g.participants, pid);
      var joined := false;
      if !member {
        var ok;
        ok, joined := g.TakeSeat(pid, now, now', ttl);
        if !ok {
          Record(OpJoin(gid, pid, now, now'));
          return SessionFull;
        }
      } else {
        g.Count();
      }
      Record(OpJoin(gid, pid, now, now'));
      var session := g.session;
      if existingCount && joined { session := session.(numParticipants := |existing| % 0x1_0000_0000); }
      r := Joined(session, g.participants);
    }

    /** The mutex section of a create request that parses. */
    method CreateSession(pid: Pid, conn: u32, src: MatchmakeSession, d: Draw)
        returns (session: MatchmakeSession, members: seq<Pid>)
      requires Valid()
      modifies this
      ensures Valid() && fresh(owned - old(owned)) && store == Apply(old(store), OpCreate(pid, conn, src, d))
      ensures history == old(history) + [OpCreate(pid, conn, src, d)]
      ensures session == Finalize(src, old(store).nextGID, pid, d) && members == [pid]
    {
      hide MatchStore.Run;
      hide Finalize;
      var g := CreateGathering(pid, conn, src, d);
      session, members := g.session, g.participants;
      Log(OpCreate(pid, conn, src, d), old(store));
    }

    /** Weighs one gathering for an auto-match. */
    method Weigh(gid: u32, src: MatchmakeSession, pid: Pid, classes: NatMap, now: int) returns (fits: bool)
      requires Holds() && gid in gatherings
      modifies this, owned
      ensures Holds() && owned == old(owned) && gatherings == old(gatherings) && history == old(history)
      ensures gid in old(store).gatherings
      ensures var l := old(store).gatherings[gid];
              var l1 := Expire(l, now);
              if Candidate(l, src) then
                && store == Put(old(store), gid, l1)
                && (fits <==> HasRoom(l1) && Reaches(classes, pid, l1.participants))
              else store == old(store) && !fits
    {
      hide Holds;
      hide ValidApart;
      hide Reaches;
      At(gid);
      var g := gatherings[gid];
      if g.session.gameMode == src.gameMode && g.session.openParticipation && !g.session.userPasswordEnabled {
        var occupied := g.OccupiedSeats(now);
        Sync(gid);
        if occupied % 0x1_0000 < g.session.gathering.maxParticipants {
          fits := ReachesAll(classes, pid, g.participants);
          return;
        }
      }
      return false;
    }

    method SelectGathering(order: seq<u32>, src: MatchmakeSession, pid: Pid, classes: NatMap, now: int)
        returns (found: Option<u32>)
      requires Holds() && forall g :: g in order ==> g in store.gatherings
      modifies this, owned
      ensures Holds() && owned == old(owned) && gatherings == old(gatherings) && history == old(history)
      ensures (store, found) == Select(old(store), order, src, pid, classes, now)
    {
      hide Holds;
      hide Candidate;
      hide HasRoom;
      hide Reaches;
      hide Expire;
      assert order[0..] == order;
      for i := 0 to |order|
        invariant Holds() && owned == old(owned) && gatherings == old(gatherings) && history == old(history)
        invariant forall g :: g in order ==> g in store.gatherings
        invariant Select(store, order[i..], src, pid, classes, now) == Select(old(store), order, src, pid, classes, now)
      {
        assert order[i] in order;
        At(order[i]);
        assert order[i..][1..] == order[i + 1..];
        var fits := Weigh(order[i], src, pid, classes, now);
        if fits { return Some(order[i]); }
      }
      return None;
    }

    /** A new gathering for an auto-matching caller. */
    method OpenGathering(pid: Pid, conn: u32, src: MatchmakeSession, d: Draw, solo: bool) returns (g: LiveGathering)
      requires Holds()
      modifies this
      ensures Holds() && fresh(g) && owned == old(owned) + {g} && fresh(owned - old(owned)) && history == old(history)
      ensures store == Opened(old(store), pid, conn, src, d, solo)
      ensures g.View() == store.gatherings[old(store).nextGID]
    {
      hide Holds;
      hide ValidApart;
      hide Create;
      At(nextGID);
      var gid := nextGID;
      CreatedCounted(store, pid, conn, src, d);
      g := CreateGathering(pid, conn, src, d);
      At(gid);
      if solo { g.SetMinParticipants(1); }
      g.Count();
      Sync(gid);
    }

    /** A gathering for the caller: the first that fits, or a new one. */
    method AutoMatchmake(pid: Pid, conn: u32, src: MatchmakeSession, d: Draw, solo: bool,
                         classes: NatMap, order: seq<u32>, now: int, now': int, now'': int)
        returns (ghost gid: u32, session: MatchmakeSession, members: seq<Pid>)
      requires Valid() && Enabled(store, OpAuto(pid, conn, src, d, solo, classes, order, now, now', now''))
      modifies this, owned
      ensures Valid() && fresh(owned - old(owned))
      ensures store == Apply(old(store), OpAuto(pid, conn, src, d, solo, classes, order, now, now', now''))
      ensures gid in store.gatherings
           && session == store.gatherings[gid].session && members == store.gatherings[gid].participants
      ensures !MatchStore.AutoMatchmake(old(store), pid, conn, src, d, solo, classes, order, now, now', now'').fellBack
      ensures history == old(history) + [OpAuto(pid, conn, src, d, solo, classes, order, now, now', now'')]
    {
      hide MatchStore.Run;
      hide Holds;
      hide ValidApart;
      hide Select;
      hide Seat;
      hide Create;
      OpenedAuto(store, pid, conn, src, d, solo, classes, order, now, now', now'');
      var found: Option<u32> := None;
      if !solo {
        SelectInStore(store, order, src, pid, classes, now);
        found := SelectGathering(order, src, pid, classes, now);
      }
      hide MatchStore.AutoMatchmake;
      var g;
      if found.None? {
        gid := store.nextGID;
        g := OpenGathering(pid, conn, src, d, solo);
      } else {
        gid := found.value;
        At(gid);
        g := gatherings[found.value];
        var ok, joined := g.TakeSeat(pid, now', now'', ttl);
        Sync(gid);
        if !ok {
          gid := store.nextGID;
          g := OpenGathering(pid, conn, src, d, false);
        }
      }
      session, members := g.session, g.participants;
      ghost var op := OpAuto(pid, conn, src, d, solo, classes, order, now, now', now'');
      Log(op, old(store));
      FallbackNeverTaken(old(history), op);
    }

    method Unregister(gid: u32, pid: Pid)
      requires Valid()
      modifies this
      ensures Valid() && owned == old(owned) && store == Apply(old(store), OpUnregister(gid, pid))
      ensures history == old(history) + [OpUnregister(gid, pid)]
    {
      hide MatchStore.Run;
      hide Holds;
      hide ValidApart;
      At(gid);
      if gid in gatherings && gatherings[gid].session.gathering.ownerPID == pid {
        Delete(gid, OpUnregister(gid, pid));
      } else {
        Skip(OpUnregister(gid, pid));
      }
    }

    method EndParticipation(gid: u32, pid: Pid)
      requires Valid()
      modifies this, owned
      ensures Valid() && owned == old(owned) && store == Apply(old(store), OpEnd(gid, pid))
      ensures history == old(history) + [OpEnd(gid, pid)]
    {
      hide MatchStore.Run;
      hide Holds;
      hide ValidApart;
      hide Without;
      At(gid);
      if gid in gatherings {
        var g := gatherings[gid];
        var left := g.Drop(pid);
        if g.participants == [] {
          Delete(gid, OpEnd(gid, pid));
        } else {
          g.Count();
          Record(OpEnd(gid, pid));
        }
      } else {
        Skip(OpEnd(gid, pid));
      }
    }

    /** Takes a disconnected player out of one gathering. */
    method DropFrom(gid: u32, pid: Pid)
      requires Holds() && gid in gatherings
      modifies this, owned
      ensures Holds() && owned == old(owned) && history == old(history)
      ensures gid in old(store).gatherings && store == RemoveFrom(old(store), gid, pid)
    {
      hide Holds;
      hide ValidApart;
      hide Without;
      At(gid);
      var g := gatherings[gid];
      WithoutFacts(g.participants, pid);
      var left := g.Drop(pid);
      if !left {
        Sync(gid);
        return;
      }
      if g.participants == [] || g.session.gathering.ownerPID == pid {
        if g.code != [] { byCode := byCode - {g.code}; }
        Discard(gid);
        return;
      }
      g.Count();
      Sync(gid);
    }

    /** A disconnect. */
    method RemovePlayer(pid: Pid)
      requires Valid()
      modifies this, owned
      ensures Valid() && owned == old(owned) && store == Apply(old(store), OpDisconnect(pid))
      ensures history == old(history) + [OpDisconnect(pid)]
    {
      hide MatchStore.Run;
      hide Holds;
      hide RemoveFrom;
      hide RemoveSome;
      if pid == 0 {
        Log(OpDisconnect(pid), store);
        return;
      }
      ghost var start := store;
      RemoveNone(start, pid);
      var todo := gatherings.Keys;
      At(0);
      while todo != {}
        invariant Holds() && owned == old(owned) && history == old(history)
        invariant todo <= start.gatherings.Keys
        invariant store == RemoveSome(start, pid, start.gatherings.Keys - todo)
        decreases todo
      {
        var gid :| gid in todo;
        RemoveNext(start, pid, start.gatherings.Keys - todo, gid);
        At(gid);
        DropFrom(gid, pid);
        assert start.gatherings.Keys - todo + {gid} == start.gatherings.Keys - (todo - {gid});
        todo := todo - {gid};
      }
      RemoveAll(start, pid);
      assert start.gatherings.Keys - {} == start.gatherings.Keys;
      Log(OpDisconnect(pid), start);
    }

    method MigrateOwnership(gid: u32, candidates: seq<Pid>)
      requires Valid()
      modifies this, owned
      ensures Valid() && owned == old(owned) && store == Apply(old(store), OpMigrate(gid, candidates))
      ensures history == old(history) + [OpMigrate(gid, candidates)]
    {
      hide MatchStore.Run;
      hide Holds;
      hide ValidApart;
      hide Migrate;
      At(gid);
      if gid in gatherings {
        var g := gatherings[gid];
        g.MigrateTo(candidates);
        Record(OpMigrate(gid, candidates));
      } else {
        Skip(OpMigrate(gid, candidates));
      }
    }

    method ApplySessionPart(p: Part) returns (known: bool)
      requires Valid()
      modifies this, owned
      ensures Valid() && owned == old(owned) && store == Apply(old(store), OpPart(p))
      ensures known <==> p.gid in old(store).gatherings
      ensures history == old(history) + [OpPart(p)]
    {
      hide MatchStore.Run;
      hide Holds;
      hide ValidApart;
      hide MatchStore.ApplyPart;
      At(p.gid);
      if p.gid !in gatherings {
        Skip(OpPart(p));
        return false;
      }
      var g := gatherings[p.gid];
      g.ApplyPart(p);
      if p.codeword != [] { byCode := byCode[p.codeword := p.gid]; }
      Record(OpPart(p));
      return true;
    }

    method SetParticipation(gid: u32, open: bool)
      requires Valid()
      modifies this, owned
      ensures Valid() && owned == old(owned) && store == Apply(old(store), OpSetOpen(gid, open))
      ensures history == old(history) + [OpSetOpen(gid, open)]
    {
      hide MatchStore.Run;
      hide Holds;
      hide ValidApart;
      At(gid);
      if gid in gatherings {
        var g := gatherings[gid];
        g.SetOpen(open);
        Record(OpSetOpen(gid, open));
      } else {
        Skip(OpSetOpen(gid, open));
      }
    }

    method UpdateApplicationBuffer(gid: u32, pid: Pid, buffer: bytes) returns (r: BufferReply)
      requires Valid()
      modifies this, owned
      ensures Valid() && owned == old(owned) && store == Apply(old(store), OpBuffer(gid, pid, buffer))
      ensures r.NoGathering? <==> gid !in old(store).gatherings
      ensures r.Stored? <==> gid in old(store).gatherings && BufferOwner(old(store).gatherings[gid]) == pid
      ensures history == old(history) + [OpBuffer(gid, pid, buffer)]
    {
      hide MatchStore.Run;
      hide Holds;
      hide ValidApart;
      At(gid);
      if gid !in gatherings {
        Skip(OpBuffer(gid, pid, buffer));
        return NoGathering;
      }
      var g := gatherings[gid];
      var owner := if g.participants != [] then g.participants[0] else 0;
      if owner != pid {
        Skip(OpBuffer(gid, pid, buffer));
        return Denied;
      }
      g.SetBuffer(buffer);
      Record(OpBuffer(gid, pid, buffer));
      return Stored;
    }

    /** `ended` tells whether the source's growth loop ends; where it does not, it holds the store for good. */
    method ModifyCurrentGameAttribute(gid: u32, pid: Pid, index: u32, value: u32) returns (ended: bool)
      requires Valid()
      modifies this, owned
      ensures Valid() && owned == old(owned)
      ensures ended <==> !Stalls(old(store), OpAttribute(gid, pid, index, value))
      ensures ended ==> store == Apply(old(store), OpAttribute(gid, pid, index, value))
      ensures history == if ended then old(history) + [OpAttribute(gid, pid, index, value)] else old(history)
      ensures !ended ==> store == old(store)
    {
      hide MatchStore.Run;
      hide Holds;
      hide ValidApart;
      hide MatchStore.SetAttribute;
      At(gid);
      ended := true;
      if gid in gatherings && gatherings[gid].participants != [] && gatherings[gid].participants[0] == pid {
        var g := gatherings[gid];
        GrowthEndsExactly(|g.session.attribs|, index);
        ended := g.SetAttribute(index, value);
        if ended { Record(OpAttribute(gid, pid, index, value)); } else { Unchanged(gid); }
      } else {
        Skip(OpAttribute(gid, pid, index, value));
      }
    }

    method AssignCode(gid: u32, code: bytes)
      requires Valid()
      modifies this, owned
      ensures Valid() && owned == old(owned) && store == Apply(old(store), OpCode(gid, code))
      ensures history == old(history) + [OpCode(gid, code)]
    {
      hide MatchStore.Run;
      hide Apply;
      hide LiveGathering.View;
      At(gid);
      LocalCode(store, gid, code);
      byCode := byCode[code := gid];
      if gid in gatherings {
        var g := gatherings[gid];
        g.SetCode(code);
        Record(OpCode(gid, code));
      } else {
        store := store.(byCode := byCode);
        Log(OpCode(gid, code), old(store));
      }
    }
  }

  lemma LocalPut(s: Store, op: Op, l: Lobby)
    requires Enabled(s, op) && Target(op).Some? && Target(op).value in s.gatherings
    requires Touch(s.gatherings[Target(op).value], op, s.ttl) == Some(l)
    ensures Apply(s, op) == Put(s, Target(op).value, l).(byCode := CodesAfter(s, op))
  {
    hide Touch;
    hide CodesAfter;
  }

  lemma LocalDelete(s: Store, op: Op)
    requires Enabled(s, op) && Target(op).Some? && Target(op).value in s.gatherings
    requires Touch(s.gatherings[Target(op).value], op, s.ttl).None?
    ensures Apply(s, op) == s.(gatherings := s.gatherings - {Target(op).value}, byCode := CodesAfter(s, op))
  {
    hide Touch;
    hide CodesAfter;
  }

  /** The store with a gathering of the caller's own; a solo caller may start alone. */
  function Opened(s: Store, pid: Pid, conn: u32, src: MatchmakeSession, d: Draw, solo: bool): (c: Store)
    ensures s.nextGID in c.gatherings
  {
    var c := Create(s, pid, conn, src, d);
    if solo then Put(c, s.nextGID, Alone(c.gatherings[s.nextGID])) else c
  }

  function Alone(l: Lobby): Lobby {
    l.(session := l.session.(gathering := l.session.gathering.(minParticipants := 1)))
  }

  /** A new gathering has its member counted already. */
  lemma CreatedCounted(s: Store, pid: Pid, conn: u32, src: MatchmakeSession, d: Draw)
    ensures var c := Create(s, pid, conn, src, d);
            && s.nextGID in c.gatherings
            && Counted(c.gatherings[s.nextGID]) == c.gatherings[s.nextGID]
            && Counted(Alone(c.gatherings[s.nextGID])) == Alone(c.gatherings[s.nextGID])
            && Put(c, s.nextGID, c.gatherings[s.nextGID]) == c
            && c.byCode == s.byCode
  {
    var c := Create(s, pid, conn, src, d);
    var l := c.gatherings[s.nextGID];
    assert l.session.numParticipants == 1 && |l.participants| == 1;
    hide Finalize;
    assert c.gatherings[s.nextGID := l] == c.gatherings;
  }

  lemma OpenedAuto(s: Store, pid: Pid, conn: u32, src: MatchmakeSession, d: Draw, solo: bool,
                   classes: NatMap, order: seq<u32>, now: int, now': int, now'': int)
    requires forall g :: g in order ==> g in s.gatherings
    ensures var m := AutoMatchmake(s, pid, conn, src, d, solo, classes, order, now, now', now'').store;
            var (s1, found) := Select(s, order, src, pid, classes, now);
            if solo then m == Opened(s, pid, conn, src, d, true)
            else if found.None? then m == Opened(s1, pid, conn, src, d, false)
            else found.value in s1.gatherings
                 && var (l, ok) := Seat(s1.gatherings[found.value], pid, now', now'', s1.ttl);
                 var s2 := Put(s1, found.value, l);
                 m == if ok then s2 else Opened(s2, pid, conn, src, d, false)
  {
    hide Select;
    hide Seat;
    hide Finalize;
    SelectInStore(s, order, src, pid, classes, now);
  }

  /** One gathering after a player disconnects. */
  function RemoveFrom(s: Store, gid: u32, pid: Pid): Store
    requires gid in s.gatherings
  {
    var l := s.gatherings[gid];
    if Stays(l, pid) then Put(s, gid, Leave(l, pid))
    else s.(gatherings := s.gatherings - {gid},
            byCode := if l.code != [] then s.byCode - {l.code} else s.byCode)
  }

  /** A disconnect that has reached the given gatherings. */
  function RemoveSome(s: Store, pid: Pid, done: set<u32>): Store {
    s.(gatherings := map g | g in s.gatherings && (g in done ==> Stays(s.gatherings[g], pid))
                       :: if g in done then Leave(s.gatherings[g], pid) else s.gatherings[g],
       byCode := s.byCode - CodesOf(s, pid, done))
  }

  function CodesOf(s: Store, pid: Pid, done: set<u32>): set<bytes> {
    set g | g in s.gatherings && g in done && !Stays(s.gatherings[g], pid) && s.gatherings[g].code != []
      :: s.gatherings[g].code
  }

  lemma RemoveNone(s: Store, pid: Pid)
    ensures RemoveSome(s, pid, s.gatherings.Keys - s.gatherings.Keys) == s
  {
    hide Stays;
    hide Leave;
    var done := s.gatherings.Keys - s.gatherings.Keys;
    assert CodesOf(s, pid, done) == {};
    assert RemoveSome(s, pid, done).gatherings == s.gatherings;
  }

  lemma RemoveAll(s: Store, pid: Pid)
    requires pid != 0
    ensures RemoveSome(s, pid, s.gatherings.Keys) == Apply(s, OpDisconnect(pid))
  {
    hide Stays;
    hide Leave;
    var all := s.gatherings.Keys;
    assert CodesOf(s, pid, all) == DroppedCodes(s, pid);
    assert RemoveSome(s, pid, all).gatherings == RemovePlayer(s, pid).gatherings;
  }

  lemma CodesNext(s: Store, pid: Pid, done: set<u32>, g: u32)
    requires g in s.gatherings
    ensures CodesOf(s, pid, done + {g}) == CodesOf(s, pid, done)
         + (if !Stays(s.gatherings[g], pid) && s.gatherings[g].code != [] then {s.gatherings[g].code} else {})
  {
    hide Stays;
    var extra := if !Stays(s.gatherings[g], pid) && s.gatherings[g].code != [] then {s.gatherings[g].code} else {};
    forall c | c in CodesOf(s, pid, done) + extra ensures c in CodesOf(s, pid, done + {g}) {
      if c in extra { assert g in done + {g}; }
      else {
        var h :| h in s.gatherings && h in done && !Stays(s.gatherings[h], pid) && s.gatherings[h].code != []
                 && s.gatherings[h].code == c;
        assert h in done + {g};
      }
    }
  }

  lemma RemoveNext(s: Store, pid: Pid, done: set<u32>, g: u32)
    requires g in s.gatherings && g !in done
    ensures g in RemoveSome(s, pid, done).gatherings
    ensures RemoveFrom(RemoveSome(s, pid, done), g, pid) == RemoveSome(s, pid, done + {g})
  {
    hide Stays;
    hide Leave;
    CodesNext(s, pid, done, g);
    hide CodesOf;
    assert RemoveFrom(RemoveSome(s, pid, done), g, pid).gatherings == RemoveSome(s, pid, done + {g}).gatherings;
    assert RemoveFrom(RemoveSome(s, pid, done), g, pid).byCode == RemoveSome(s, pid, done + {g}).byCode;
  }

  lemma LocalCode(s: Store, gid: u32, code: bytes)
    ensures gid !in s.gatherings ==> Apply(s, OpCode(gid, code)) == s.(byCode := s.byCode[code := gid])
  {
  }

  lemma UntouchedStore(s: Store, op: Op)
    requires Target(op).Some?
    requires Target(op).value in s.gatherings ==>
               Touch(s.gatherings[Target(op).value], op, s.ttl) == Some(s.gatherings[Target(op).value])
    requires CodesAfter(s, op) == s.byCode
    ensures ApplyLocal(s, op) == s
  {
    hide Touch;
    var gid := Target(op).value;
    if gid in s.gatherings { assert s.gatherings[gid := s.gatherings[gid]] == s.gatherings; }
  }
}
