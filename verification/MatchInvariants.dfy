/** What every run of the matchmaking store keeps. */
module MatchInvariants {
  import opened Bytes
  import opened Session
  import opened MatchStore

  // ---- the shape of a gathering -------------------------------------------

  predicate Distinct(ps: seq<Pid>) { forall i, j :: 0 <= i < j < |ps| ==> ps[i] != ps[j] }

  /** A gathering has members, each once; reservations are for others and are not counted in
      NumParticipants; there is a capacity; all seats together fit a u16. */
  predicate LobbyOk(l: Lobby) {
    && l.participants != [] && Distinct(l.participants)
    && (forall p :: p in l.participants ==> p !in l.reservations)
    && l.session.numParticipants == |l.participants|
    && Capacity(l) > 0
    && Occupied(l) <= 0xFFFF
  }

  predicate Ok(s: Store) {
    forall g :: g in s.gatherings ==> LobbyOk(s.gatherings[g]) && s.gatherings[g].session.gathering.id == g
  }

  /** Seats never grow except within the capacity. */
  predicate Bounded(l: Lobby, l': Lobby) {
    Occupied(l') <= Occupied(l) || Occupied(l') <= Capacity(l')
  }

  // ---- seats --------------------------------------------------------------

  lemma {:induction false} MapSubset(a: map<Pid, int>, b: map<Pid, int>)
    requires a.Keys <= b.Keys
    ensures |a| <= |b|
  {
    assert b.Keys == a.Keys + (b.Keys - a.Keys);
  }

  lemma ExpireFacts(l: Lobby, now: int)
    ensures var l1 := Expire(l, now);
            l1 == l.(reservations := l1.reservations) && l1.reservations.Keys <= l.reservations.Keys
            && Occupied(l1) <= Occupied(l)
  {
    MapSubset(Expire(l, now).reservations, l.reservations);
  }

  lemma ReleaseFacts(l: Lobby, pid: Pid)
    ensures var l1 := Release(l, pid);
            Occupied(l1) == if pid in l.reservations then Occupied(l) - 1 else Occupied(l)
  {
    var m := l.reservations;
    if pid in m {
      assert m.Keys == (m - {pid}).Keys + {pid};
    } else {
      assert m - {pid} == m;
    }
  }

  lemma HoldFacts(l: Lobby, pid: Pid, until: int)
    ensures var l1 := Hold(l, pid, until);
            Occupied(l1) == if pid in l.reservations then Occupied(l) else Occupied(l) + 1
  {
    var m := l.reservations[pid := until];
    if pid in l.reservations {
      assert m.Keys == l.reservations.Keys;
    } else {
      assert m.Keys == l.reservations.Keys + {pid};
    }
  }

  /** Everything but the reservations is left alone, and the seats stay within bounds. */
  lemma ReserveFacts(l: Lobby, pid: Pid, now: int, ttl: int)
    requires LobbyOk(l)
    ensures var (l1, ok) := Reserve(l, pid, now, ttl);
            && l1 == l.(reservations := l1.reservations)
            && LobbyOk(l1) && Bounded(l, l1)
            && (ok && pid !in l.participants ==> pid in l1.reservations)
  {
    ReleaseFacts(l, pid);
    ExpireFacts(l, now);
    HoldFacts(Expire(l, now), pid, now + ttl);
  }

  lemma DistinctSnoc(ps: seq<Pid>, pid: Pid)
    requires Distinct(ps) && pid !in ps
    ensures Distinct(ps + [pid])
  {
  }

  lemma CommitFacts(l: Lobby, pid: Pid, now: int)
    requires LobbyOk(l)
    ensures var (l1, joined) := Commit(l, pid, now);
            && l1 == l.(reservations := l1.reservations, participants := l1.participants)
            && l1.participants == (if joined then l.participants + [pid] else l.participants)
            && (joined ==> pid !in l.participants)
            && LobbyOk(Counted(l1)) && Occupied(l1) <= Occupied(l)
  {
    hide LobbyOk;
    ReleaseFacts(l, pid);
    ReleaseOk(l, pid);
    if Commit(l, pid, now).1 { JoinedOk(l, pid); }
  }

  lemma ReleaseOk(l: Lobby, pid: Pid)
    requires LobbyOk(l)
    ensures LobbyOk(Release(l, pid)) && Counted(Release(l, pid)) == Release(l, pid)
  {
    ReleaseFacts(l, pid);
  }

  lemma JoinedOk(l: Lobby, pid: Pid)
    requires LobbyOk(l) && pid !in l.participants && pid in l.reservations
    ensures LobbyOk(Counted(Release(l, pid).(participants := l.participants + [pid])))
  {
    hide Distinct;
    ReleaseFacts(l, pid);
    DistinctSnoc(l.participants, pid);
    var l1 := Release(l, pid).(participants := l.participants + [pid]);
    assert forall p :: p in l1.participants ==> p !in l1.reservations;
  }

  lemma SeatFacts(l: Lobby, pid: Pid, now: int, now': int, ttl: int)
    requires LobbyOk(l)
    ensures var (l1, ok) := Seat(l, pid, now, now', ttl);
            && LobbyOk(l1) && Bounded(l, l1)
            && l1.session.gathering == l.session.gathering
            && (|| l1.participants == l.participants
                || (pid !in l.participants && l1.participants == l.participants + [pid]))
  {
    hide LobbyOk;
    hide Reserve;
    hide Commit;
    ReserveFacts(l, pid, now, ttl);
    CommitFacts(Reserve(l, pid, now, ttl).0, pid, now');
  }

  /** A seat seen free is granted, whatever the clock shows at the reservation. */
  lemma RoomMeansSeat(l: Lobby, pid: Pid, now: int, now': int, ttl: int)
    requires LobbyOk(l) && HasRoom(l)
    ensures Seat(l, pid, now, now', ttl).1
  {
    ExpireFacts(l, now);
  }

  // ---- members ------------------------------------------------------------

  lemma {:induction false} WithoutFacts(ps: seq<Pid>, pid: Pid)
    ensures forall p :: p in Without(ps, pid) <==> p in ps && p != pid
    ensures |Without(ps, pid)| <= |ps| && (|Without(ps, pid)| == |ps| <==> pid !in ps)
    ensures pid !in ps ==> Without(ps, pid) == ps
    ensures Distinct(ps) ==> Distinct(Without(ps, pid))
  {
    if ps == [] {
    } else {
      WithoutFacts(ps[1..], pid);
      assert ps == [ps[0]] + ps[1..];
      var w := Without(ps[1..], pid);
      if Distinct(ps) {
        assert Distinct(ps[1..]);
        assert ps[0] !in ps[1..];
      }
    }
  }

  /** Migration permutes the members and puts the first candidate who is one in front. */
  lemma MigrateFacts(l: Lobby, candidates: seq<Pid>)
    ensures var l1 := Migrate(l, candidates);
            && l1 == l.(participants := l1.participants)
            && |l1.participants| == |l.participants|
            && multiset(l1.participants) == multiset(l.participants)
            && (match FirstMember(candidates, l.participants)
                case None => l1 == l
                case Some(c) => l1.participants != [] && l1.participants[0] == c)
  {
    FirstMemberIsMember(candidates, l.participants);
    var f := FirstMember(candidates, l.participants);
    if f.Some? { SwapFacts(l.participants, f.value); }
  }

  lemma SwapFacts(ms: seq<Pid>, pid: Pid)
    requires pid in ms
    ensures |ToFront(ms, pid)| == |ms| && ToFront(ms, pid)[0] == pid
    ensures multiset(ToFront(ms, pid)) == multiset(ms)
    ensures forall p :: p in ToFront(ms, pid) <==> p in ms
  {
    hide IndexOf;
    var i := IndexOf(ms, pid);
    var a := ms[i := ms[0]];
    assert multiset(a) == multiset(ms) - multiset{pid} + multiset{ms[0]};
    var b := a[0 := pid];
    assert multiset(b) == multiset(a) - multiset{a[0]} + multiset{pid};
    SameMembers(b, ms);
  }

  lemma SameMembers(a: seq<Pid>, b: seq<Pid>)
    requires multiset(a) == multiset(b)
    ensures forall p :: p in a <==> p in b
  {
    forall p ensures p in a <==> p in b {
      assert p in a <==> p in multiset(a);
      assert p in b <==> p in multiset(b);
    }
  }

  lemma SwapDistinct(ms: seq<Pid>, pid: Pid)
    requires pid in ms && Distinct(ms)
    ensures Distinct(ToFront(ms, pid))
  {
    hide IndexOf;
    var i := IndexOf(ms, pid);
    var b := ToFront(ms, pid);
    assert b[0] == pid && (forall k :: 0 < k < |ms| && k != i ==> b[k] == ms[k]) && (i > 0 ==> b[i] == ms[0]);
    forall x, y | 0 <= x < y < |b| ensures b[x] != b[y] {
      assert ms[i] == pid;
      if x == 0 && y == i { assert ms[0] != ms[i]; }
    }
  }

  /** `candidates[i]` is a member and no earlier candidate is. */
  predicate IsFirst(candidates: seq<Pid>, members: seq<Pid>, i: nat) {
    i < |candidates| && candidates[i] in members && (forall j :: 0 <= j < i ==> candidates[j] !in members)
  }

  /** The first candidate who is a member: everyone listed before is not one. */
  lemma {:induction false} FirstMemberExact(candidates: seq<Pid>, members: seq<Pid>)
    ensures match FirstMember(candidates, members)
            case None => forall c :: c in candidates ==> c !in members
            case Some(c) => c in members && (exists i: nat :: IsFirst(candidates, members, i) && candidates[i] == c)
  {
    if candidates == [] {
    } else {
      if candidates[0] in members {
        assert IsFirst(candidates, members, 0);
      } else {
        var more := candidates[1..];
        FirstMemberExact(more, members);
        assert candidates == [candidates[0]] + more;
        var f := FirstMember(more, members);
        if f.Some? {
          var i: nat :| IsFirst(more, members, i) && more[i] == f.value;
          assert IsFirst(candidates, members, i + 1);
        }
      }
    }
  }

  lemma LeaveFacts(l: Lobby, pid: Pid)
    requires LobbyOk(l) && Without(l.participants, pid) != []
    ensures var l1 := Counted(Release(l, pid).(participants := Without(l.participants, pid)));
            LobbyOk(l1) && Occupied(l1) <= Occupied(l) && l1.session.gathering == l.session.gathering
  {
    ReleaseFacts(l, pid);
    WithoutFacts(l.participants, pid);
  }

  // ---- one gathering at a time --------------------------------------------

  lemma OkPut(s: Store, gid: u32, l: Lobby)
    requires Ok(s) && LobbyOk(l) && l.session.gathering.id == gid
    ensures Ok(Put(s, gid, l))
  {
    hide LobbyOk;
  }

  lemma CreateFacts(s: Store, pid: Pid, conn: u32, src: MatchmakeSession, d: Draw)
    ensures var l := Create(s, pid, conn, src, d).gatherings[s.nextGID];
            LobbyOk(l) && Occupied(l) <= Capacity(l) && l.session.gathering.id == s.nextGID && l.participants == [pid]
  {
  }

  /** What the caller of an auto-match is looking for. */
  predicate Fits(l: Lobby, src: MatchmakeSession, pid: Pid, classes: NatMap, now: int) {
    Candidate(l, src) && HasRoom(Expire(l, now)) && Reaches(classes, pid, l.participants)
  }

  predicate FirstFit(s: Store, order: seq<u32>, src: MatchmakeSession, pid: Pid, classes: NatMap, now: int, i: nat) {
    && (forall g :: g in order ==> g in s.gatherings)
    && i < |order| && Fits(s.gatherings[order[i]], src, pid, classes, now)
    && (forall j :: 0 <= j < i ==> !Fits(s.gatherings[order[j]], src, pid, classes, now))
  }

  predicate NoRepeats(order: seq<u32>) { forall i, j :: 0 <= i < j < |order| ==> order[i] != order[j] }

  /** The gathering selected is the first that fits, and none is selected only if none fits. */
  lemma {:induction false} SelectFirst(s: Store, order: seq<u32>, src: MatchmakeSession, pid: Pid,
                                       classes: NatMap, now: int)
    requires (forall g :: g in order ==> g in s.gatherings) && NoRepeats(order)
    ensures match Select(s, order, src, pid, classes, now).1
            case None => forall i :: 0 <= i < |order| ==> !Fits(s.gatherings[order[i]], src, pid, classes, now)
            case Some(g) => exists i: nat :: FirstFit(s, order, src, pid, classes, now, i) && order[i] == g
    decreases |order|
  {
    hide Expire;
    hide HasRoom;
    hide Reaches;
    hide Candidate;
    if order == [] {
    } else {
      var gid, rest := order[0], order[1..];
      assert gid in order && forall g :: g in rest ==> g in order;
      assert forall j :: 0 <= j < |rest| ==> rest[j] == order[j + 1] && rest[j] != gid;
      var l := s.gatherings[gid];
      assert Expire(l, now).participants == l.participants by { ExpireFacts(l, now); }
      if Fits(l, src, pid, classes, now) {
        assert FirstFit(s, order, src, pid, classes, now, 0);
      } else {
        var s1 := if Candidate(l, src) then Put(s, gid, Expire(l, now)) else s;
        assert forall g :: g in rest ==> s1.gatherings[g] == s.gatherings[g];
        SelectFirst(s1, rest, src, pid, classes, now);
        hide Fits;
        var found := Select(s1, rest, src, pid, classes, now).1;
        if found.Some? {
          var i: nat :| FirstFit(s1, rest, src, pid, classes, now, i) && rest[i] == found.value;
          Later(s, s1, order, src, pid, classes, now, i);
        } else {
          forall i | 0 <= i < |order| ensures !Fits(s.gatherings[order[i]], src, pid, classes, now) {
            if i > 0 { assert order[i] == rest[i - 1]; }
          }
        }
      }
    }
  }

  lemma Later(s: Store, s1: Store, order: seq<u32>, src: MatchmakeSession, pid: Pid, classes: NatMap, now: int, i: nat)
    requires order != [] && (forall g :: g in order ==> g in s.gatherings)
    requires !Fits(s.gatherings[order[0]], src, pid, classes, now)
    requires FirstFit(s1, order[1..], src, pid, classes, now, i)
    requires forall g :: g in order[1..] ==> g in s1.gatherings && s1.gatherings[g] == s.gatherings[g]
    ensures FirstFit(s, order, src, pid, classes, now, i + 1) && order[i + 1] == order[1..][i]
  {
    hide Fits;
    var rest := order[1..];
    assert rest[i] in rest;
    forall j | 0 <= j < i + 1 ensures !Fits(s.gatherings[order[j]], src, pid, classes, now) {
      if j > 0 { assert order[j] == rest[j - 1] && rest[j - 1] in rest; }
    }
  }

  lemma {:induction false} SelectFacts(s: Store, order: seq<u32>, src: MatchmakeSession, pid: Pid,
                                       classes: NatMap, now: int)
    requires Ok(s) && forall g :: g in order ==> g in s.gatherings
    ensures var (s1, g) := Select(s, order, src, pid, classes, now);
            && Ok(s1) && s1 == s.(gatherings := s1.gatherings) && s1.gatherings.Keys == s.gatherings.Keys
            && (forall x :: x in s.gatherings ==> Thinned(s.gatherings[x], s1.gatherings[x]))
            && (g.Some? ==> g.value in s1.gatherings && HasRoom(s1.gatherings[g.value])
                            && Reaches(classes, pid, s1.gatherings[g.value].participants))
    decreases |order|
  {
    hide LobbyOk;
    hide Expire;
    hide HasRoom;
    hide Reaches;
    hide Candidate;
    AllThinned(s);
    if order == [] {
    } else {
      hide Thinned;
      var gid := order[0];
      assert gid in order && forall g :: g in order[1..] ==> g in order;
      var l := s.gatherings[gid];
      if !Candidate(l, src) {
        SelectFacts(s, order[1..], src, pid, classes, now);
      } else {
        ExpireOk(l, now);
        var s1 := Put(s, gid, Expire(l, now));
        OkPut(s, gid, Expire(l, now));
        assert s1.gatherings.Keys == s.gatherings.Keys;
        assert forall x :: x in s.gatherings ==> Thinned(s.gatherings[x], s1.gatherings[x]);
        if HasRoom(Expire(l, now)) && Reaches(classes, pid, Expire(l, now).participants) {
        } else {
          SelectFacts(s1, order[1..], src, pid, classes, now);
          var s2 := Select(s1, order[1..], src, pid, classes, now).0;
          forall x | x in s.gatherings ensures Thinned(s.gatherings[x], s2.gatherings[x]) {
            ThinnedTrans(s.gatherings[x], s1.gatherings[x], s2.gatherings[x]);
          }
        }
      }
    }
  }

  /** A gathering that lost at most reservations. */
  predicate Thinned(l: Lobby, l': Lobby) {
    l' == l.(reservations := l'.reservations) && Occupied(l') <= Occupied(l)
  }

  lemma AllThinned(s: Store)
    ensures forall x :: x in s.gatherings ==> Thinned(s.gatherings[x], s.gatherings[x])
  {
  }

  lemma ThinnedTrans(a: Lobby, b: Lobby, c: Lobby)
    requires Thinned(a, b) && Thinned(b, c)
    ensures Thinned(a, c)
  {
  }

  lemma ExpireOk(l: Lobby, now: int)
    ensures Thinned(l, Expire(l, now))
    ensures LobbyOk(l) ==> LobbyOk(Expire(l, now))
  {
    ExpireFacts(l, now);
  }

  // ---- auto-matchmaking ---------------------------------------------------

  /** From a well-formed store the "capacity changed" branch is never taken: occupancy fits the
      u16 of the selection test, and expiring reservations again only frees seats. */
  lemma FallbackUnreachable(s: Store, pid: Pid, conn: u32, src: MatchmakeSession, d: Draw, solo: bool,
                            classes: NatMap, order: seq<u32>, now: int, now': int, now'': int)
    requires Ok(s) && forall g :: g in order ==> g in s.gatherings
    ensures !AutoMatchmake(s, pid, conn, src, d, solo, classes, order, now, now', now'').fellBack
  {
    hide LobbyOk;
    hide Select;
    hide Seat;
    hide HasRoom;
    hide Create;
    SelectFacts(s, order, src, pid, classes, now);
    var (s1, g) := Select(s, order, src, pid, classes, now);
    if g.Some? { RoomMeansSeat(s1.gatherings[g.value], pid, now', now'', s1.ttl); }
  }

  /** The caller took a seat among members it can reach, or the gathering only lost reservations. */
  predicate Seated(l: Lobby, l': Lobby, pid: Pid, classes: NatMap) {
    && Bounded(l, l') && Capacity(l') == Capacity(l)
    && (|| l'.participants == l.participants
        || (&& l'.participants == l.participants + [pid] && pid !in l.participants
            && Reaches(classes, pid, l.participants)))
  }

  /** What auto-matchmaking does to the store: thin some gatherings, then seat the caller in one it
      can reach or open a new one. */
  lemma AutoFacts(s: Store, pid: Pid, conn: u32, src: MatchmakeSession, d: Draw, solo: bool,
                  classes: NatMap, order: seq<u32>, now: int, now': int, now'': int)
      returns (s1: Store, gid: u32, l: Lobby, isNew: bool)
    requires Ok(s) && forall g :: g in order ==> g in s.gatherings
    ensures Ok(s1) && s1.gatherings.Keys == s.gatherings.Keys
    ensures forall x :: x in s.gatherings ==> Thinned(s.gatherings[x], s1.gatherings[x])
    ensures AutoMatchmake(s, pid, conn, src, d, solo, classes, order, now, now', now'').store
         == Put(s1, gid, l).(nextGID := if isNew then (s.nextGID + 1) % 0x1_0000_0000 else s.nextGID)
    ensures LobbyOk(l) && l.session.gathering.id == gid
    ensures isNew ==> gid == s.nextGID && l.participants == [pid] && Occupied(l) <= Capacity(l)
    ensures !isNew ==> gid in s1.gatherings && Seated(s1.gatherings[gid], l, pid, classes)
  {
    hide LobbyOk;
    hide Select;
    hide Seat;
    hide HasRoom;
    hide Reaches;
    hide Finalize;
    if solo {
      s1, gid, isNew := s, s.nextGID, true;
      AllThinned(s);
      hide Thinned;
      CreateFacts(s, pid, conn, src, d);
      var l0 := Create(s, pid, conn, src, d).gatherings[gid];
      l := l0.(session := l0.session.(gathering := l0.session.gathering.(minParticipants := 1)));
      MinChanged(l0, l);
    } else {
      hide Thinned;
      SelectFacts(s, order, src, pid, classes, now);
      var (s2, g) := Select(s, order, src, pid, classes, now);
      s1 := s2;
      if g.None? {
        gid, isNew := s.nextGID, true;
        CreateFacts(s1, pid, conn, src, d);
        l := Create(s1, pid, conn, src, d).gatherings[gid];
      } else {
        gid, isNew := g.value, false;
        RoomMeansSeat(s1.gatherings[gid], pid, now', now'', s1.ttl);
        SeatFacts(s1.gatherings[gid], pid, now', now'', s1.ttl);
        l := Seat(s1.gatherings[gid], pid, now', now'', s1.ttl).0;
      }
    }
  }

  lemma MinChanged(l0: Lobby, l: Lobby)
    requires LobbyOk(l0)
    requires l == l0.(session := l0.session.(gathering := l0.session.gathering.(minParticipants := 1)))
    ensures LobbyOk(l) && Occupied(l) == Occupied(l0) && Capacity(l) == Capacity(l0)
  {
  }

  // ---- growing an attribute list ------------------------------------------

  /** Below the last index the growth loop runs exactly so often. */
  lemma GrowthCounts(len: nat, index: u32, m: nat)
    requires index < LAST_INDEX && m <= Growth(len, index)
    ensures Growing(len + m, index) <==> m < Growth(len, index)
  {
    var low := len % 0x1_0000_0000;
    assert low <= index ==> (len + m) % 0x1_0000_0000 == low + m;
  }

  /** The growth of a list ends for every index but the last; for that one its test holds at every length. */
  lemma GrowthEndsExactly(len: nat, index: u32)
    ensures (exists n: nat :: len <= n && !Growing(n, index)) <==> index < LAST_INDEX
  {
    if index < LAST_INDEX {
      GrowthCounts(len, index, Growth(len, index));
      assert !Growing(len + Growth(len, index), index);
    }
  }
}
