/** The store of stamped tournaments (nextendo-nex/tournament.go): creation, registration, deletion. The file
    it is saved to is not part of the model. */
module TournamentStore {
  import opened Bytes
  import opened Tournament

  datatype Entry = Entry(id: u32, owner: u64, code: bytes, mark: bytes, blob: bytes, participants: seq<u64>)

  datatype Store = Store(byID: map<u32, Entry>, nextID: u32)

  function NewStore(): Store { Store(map[], 1000) }

  predicate ValidStored(t: Entry) {
    && t.id != 0 && 12 <= |t.blob| <= MAX_BLOB + CODE_LEN
    && FromLe32(t.blob[..4]) == t.id && CodeMatches(t.blob, t.code)
  }

  predicate Acceptable(payload: bytes) {
    && 0 < |payload| <= MAX_BLOB && !Locate(payload).Absent?
    && (LocateBounds(payload); payload[Locate(payload).at..Locate(payload).at + 3] == EMPTY_CODE)
  }

  function Stamped(id: u32, owner: u64, payload: bytes, mark: bytes, code: bytes): Entry
    requires |mark| == 8
  {
    Entry(id, owner, code, mark, Stamp(payload, id, mark, code), [owner])
  }

  /** The id is taken before the stamped entry is validated. */
  function Create(s: Store, owner: u64, payload: bytes, mark: bytes, code: bytes): (Store, Option<Entry>)
    requires |mark| == 8
  {
    if !Acceptable(payload) || |s.byID| >= MAX_TOURNAMENTS then (s, None)
    else
      var t := Stamped(s.nextID, owner, payload, mark, code);
      var s1 := s.(nextID := (s.nextID + 1) % 0x1_0000_0000);
      if !ValidStored(t) then (s1, None) else (s1.(byID := s1.byID[t.id := t]), Some(t))
  }

  function Join(s: Store, id: u32, pid: u64): (Store, bool) {
    if id !in s.byID || !ValidStored(s.byID[id]) then (s, false)
    else if pid in s.byID[id].participants then (s, true)
    else (s.(byID := s.byID[id := s.byID[id].(participants := s.byID[id].participants + [pid])]), true)
  }

  function Delete(s: Store, id: u32, pid: u64): (Store, bool) {
    if id !in s.byID || !ValidStored(s.byID[id]) || s.byID[id].owner != pid then (s, false)
    else (s.(byID := s.byID - {id}), true)
  }

  // ---- what is accepted ---------------------------------------------------

  lemma StampedValid(id: u32, owner: u64, payload: bytes, mark: bytes, code: bytes)
    requires Stampable(payload) && |payload| <= MAX_BLOB && |mark| == 8 && Digits(code) && id != 0
    ensures ValidStored(Stamped(id, owner, payload, mark, code))
  {
    hide CodeMatches;
    hide Locate;
    Stamping(payload, id, mark, code);
    CodeReadsBack(payload, id, mark, code, code);
    Le32RoundTrip(id);
    hide Stamp;
    hide Le32;
  }

  lemma ScannedInvalid(id: u32, owner: u64, payload: bytes, mark: bytes, code: bytes)
    requires Locate(payload).Scanned? && |mark| == 8 && Digits(code)
    ensures !ValidStored(Stamped(id, owner, payload, mark, code))
  {
    ScannedNeverMatches(payload, id, mark, code, code);
  }

  /** A payload is accepted exactly when the walk reaches the terminator with an empty code behind
      it, the payload is within its limit, the store has room and the next id is not zero; a code
      found by the fallback scan never leads to acceptance. */
  lemma AcceptedExactly(s: Store, owner: u64, payload: bytes, mark: bytes, code: bytes)
    requires |mark| == 8 && Digits(code)
    ensures Create(s, owner, payload, mark, code).1.Some? <==>
              Stampable(payload) && |payload| <= MAX_BLOB && |s.byID| < MAX_TOURNAMENTS && s.nextID != 0
  {
    hide CodeMatches;
    hide Stamp;
    hide Digits;
    LocateBounds(payload);
    if Stampable(payload) && |payload| <= MAX_BLOB && s.nextID != 0 {
      StampedValid(s.nextID, owner, payload, mark, code);
    }
    if Locate(payload).Scanned? { ScannedInvalid(s.nextID, owner, payload, mark, code); }
  }

  // ---- the store over runs ------------------------------------------------

  datatype Op =
    | OpCreate(owner: u64, payload: bytes, mark: bytes, code: bytes)
    | OpJoin(id: u32, pid: u64)
    | OpDelete(id: u32, pid: u64)

  predicate Proper(op: Op) { op.OpCreate? ==> |op.mark| == 8 }

  function Apply(s: Store, op: Op): Store
    requires Proper(op)
  {
    match op
    case OpCreate(owner, payload, mark, code) => Create(s, owner, payload, mark, code).0
    case OpJoin(id, pid) => Join(s, id, pid).0
    case OpDelete(id, pid) => Delete(s, id, pid).0
  }

  function Run(ops: seq<Op>): Store
    requires forall i :: 0 <= i < |ops| ==> Proper(ops[i])
  {
    if ops == [] then NewStore() else Apply(Run(ops[..|ops| - 1]), ops[|ops| - 1])
  }

  predicate Distinct(ps: seq<u64>) { forall i, j :: 0 <= i < j < |ps| ==> ps[i] != ps[j] }

  predicate EntryOk(t: Entry, id: u32) {
    t.id == id && ValidStored(t) && Distinct(t.participants) && |t.participants| > 0 && t.participants[0] == t.owner
  }

  predicate Ok(s: Store) {
    |s.byID| <= MAX_TOURNAMENTS && forall id :: id in s.byID ==> EntryOk(s.byID[id], id)
  }

  lemma MapAdd<K, V>(m: map<K, V>, k: K, v: V)
    ensures |m[k := v]| == if k in m then |m| else |m| + 1
  {
    if k in m { assert m[k := v].Keys == m.Keys; } else { assert m[k := v].Keys == m.Keys + {k}; }
  }

  lemma MapDrop<K, V>(m: map<K, V>, k: K)
    ensures |m - {k}| <= |m|
  {
    if k in m { assert m.Keys == (m - {k}).Keys + {k}; } else { assert m - {k} == m; }
  }

  lemma EntryJoins(t: Entry, id: u32, pid: u64)
    requires EntryOk(t, id) && pid !in t.participants
    ensures EntryOk(t.(participants := t.participants + [pid]), id)
  {
    hide CodeMatches;
    hide FromLe32;
  }

  lemma CreateOk(s: Store, owner: u64, payload: bytes, mark: bytes, code: bytes)
    requires Ok(s) && |mark| == 8
    ensures Ok(Create(s, owner, payload, mark, code).0)
  {
    hide ValidStored;
    hide Acceptable;
    hide Stamp;
    MapAdd(s.byID, s.nextID, Stamped(s.nextID, owner, payload, mark, code));
  }

  lemma JoinOk(s: Store, id: u32, pid: u64)
    requires Ok(s)
    ensures Ok(Join(s, id, pid).0)
  {
    hide ValidStored;
    if id in s.byID && pid !in s.byID[id].participants {
      MapAdd(s.byID, id, s.byID[id].(participants := s.byID[id].participants + [pid]));
      EntryJoins(s.byID[id], id, pid);
    }
    hide EntryOk;
  }

  /** Every operation keeps every stored tournament valid, under its own id and within the bound. */
  lemma StepOk(s: Store, op: Op)
    requires Ok(s) && Proper(op)
    ensures Ok(Apply(s, op))
  {
    hide Create;
    hide Join;
    hide EntryOk;
    hide ValidStored;
    match op
    case OpCreate(owner, payload, mark, code) => CreateOk(s, owner, payload, mark, code);
    case OpJoin(id, pid) => JoinOk(s, id, pid);
    case OpDelete(id, _) => MapDrop(s.byID, id);
  }

  lemma {:induction false} AlwaysOk(ops: seq<Op>)
    requires forall i :: 0 <= i < |ops| ==> Proper(ops[i])
    ensures Ok(Run(ops))
    decreases |ops|
  {
    hide Apply;
    if ops == [] {
    } else {
      AlwaysOk(ops[..|ops| - 1]);
      StepOk(Run(ops[..|ops| - 1]), ops[|ops| - 1]);
    }
  }

  predicate IdsBelow(s: Store) { forall id :: id in s.byID ==> id < s.nextID }

  /** What one tournament keeps: everything but its registrations, which only grow. */
  predicate Continues(t: Entry, t': Entry) {
    && t'.id == t.id && t'.owner == t.owner && t'.code == t.code && t'.mark == t.mark && t'.blob == t.blob
    && t.participants <= t'.participants
  }

  predicate KeptBy(s: Store, s': Store, id: u32)
    requires id in s.byID
  {
    IdsBelow(s') && id in s'.byID && Continues(s.byID[id], s'.byID[id])
  }

  lemma CreateKeeps(s: Store, owner: u64, payload: bytes, mark: bytes, code: bytes, id: u32)
    requires IdsBelow(s) && s.nextID < 0xFFFF_FFFF && id in s.byID && |mark| == 8
    ensures KeptBy(s, Create(s, owner, payload, mark, code).0, id)
  {
    hide Acceptable;
    hide Stamp;
    hide ValidStored;
  }

  lemma JoinKeeps(s: Store, joined: u32, pid: u64, id: u32)
    requires IdsBelow(s) && id in s.byID
    ensures KeptBy(s, Join(s, joined, pid).0, id)
  {
    hide ValidStored;
  }

  lemma DeleteKeeps(s: Store, deleted: u32, pid: u64, id: u32)
    requires IdsBelow(s) && id in s.byID && EntryOk(s.byID[id], id)
    ensures var s' := Delete(s, deleted, pid).0;
            if deleted == id && pid == s.byID[id].owner then IdsBelow(s') && id !in s'.byID else KeptBy(s, s', id)
  {
    assert ValidStored(s.byID[id]);
    hide EntryOk;
    hide ValidStored;
  }

  /** One operation keeps a tournament, unless it is its owner's deletion, which removes it. */
  lemma KeptOrDeleted(s: Store, op: Op, id: u32)
    requires Ok(s) && Proper(op) && IdsBelow(s) && s.nextID < 0xFFFF_FFFF && id in s.byID
    ensures var s' := Apply(s, op);
            && IdsBelow(s')
            && (id in s'.byID ==> Continues(s.byID[id], s'.byID[id]))
            && (id !in s'.byID <==> op == OpDelete(id, s.byID[id].owner))
  {
    hide EntryOk;
    hide Create;
    hide Join;
    hide Delete;
    hide IdsBelow;
    hide Continues;
    match op
    case OpCreate(owner, payload, mark, code) => CreateKeeps(s, owner, payload, mark, code, id);
    case OpJoin(joined, pid) => JoinKeeps(s, joined, pid, id);
    case OpDelete(deleted, pid) => DeleteKeeps(s, deleted, pid, id);
  }

  function RunFrom(s: Store, ops: seq<Op>): Store
    requires forall i :: 0 <= i < |ops| ==> Proper(ops[i])
  {
    if ops == [] then s else Apply(RunFrom(s, ops[..|ops| - 1]), ops[|ops| - 1])
  }

  /** The id counter stays short of its last value before every operation of the run. */
  predicate NeverWraps(s: Store, ops: seq<Op>)
    requires forall i :: 0 <= i < |ops| ==> Proper(ops[i])
  {
    forall k :: 0 <= k < |ops| ==> RunFrom(s, ops[..k]).nextID < 0xFFFF_FFFF
  }

  lemma NeverWrapsBefore(s: Store, ops: seq<Op>)
    requires (forall i :: 0 <= i < |ops| ==> Proper(ops[i])) && NeverWraps(s, ops) && ops != []
    ensures NeverWraps(s, ops[..|ops| - 1]) && RunFrom(s, ops[..|ops| - 1]).nextID < 0xFFFF_FFFF
  {
    hide RunFrom;
    var before := ops[..|ops| - 1];
    forall k | 0 <= k < |before| ensures RunFrom(s, before[..k]).nextID < 0xFFFF_FFFF {
      assert before[..k] == ops[..k];
    }
  }

  /** Below the counter before an operation, below it after, as long as it does not wrap. */
  lemma IdsStep(s: Store, op: Op)
    requires IdsBelow(s) && Proper(op) && s.nextID < 0xFFFF_FFFF
    ensures IdsBelow(Apply(s, op))
  {
    hide ValidStored;
    hide Acceptable;
    hide Stamp;
  }

  lemma {:induction false} KeepsBounds(s: Store, ops: seq<Op>)
    requires Ok(s) && IdsBelow(s) && (forall i :: 0 <= i < |ops| ==> Proper(ops[i])) && NeverWraps(s, ops)
    ensures Ok(RunFrom(s, ops)) && IdsBelow(RunFrom(s, ops))
    decreases |ops|
  {
    hide Apply;
    hide EntryOk;
    if ops == [] {
    } else {
      hide Ok;
      hide IdsBelow;
      var before := ops[..|ops| - 1];
      NeverWrapsBefore(s, ops);
      hide NeverWraps;
      KeepsBounds(s, before);
      StepOk(RunFrom(s, before), ops[|ops| - 1]);
      IdsStep(RunFrom(s, before), ops[|ops| - 1]);
    }
  }

  /** In every run from an empty store, until the counter wraps, every id is below it, so no creation
      replaces a stored tournament. */
  lemma {:induction false} IdsAlwaysBelow(ops: seq<Op>)
    requires (forall i :: 0 <= i < |ops| ==> Proper(ops[i])) && NeverWraps(NewStore(), ops)
    ensures RunFrom(NewStore(), ops) == Run(ops) && Ok(Run(ops)) && IdsBelow(Run(ops))
  {
    KeepsBounds(NewStore(), ops);
    SameRun(ops);
  }

  lemma {:induction false} SameRun(ops: seq<Op>)
    requires forall i :: 0 <= i < |ops| ==> Proper(ops[i])
    ensures RunFrom(NewStore(), ops) == Run(ops)
    decreases |ops|
  {
    hide Apply;
    if ops == [] {
    } else {
      SameRun(ops[..|ops| - 1]);
    }
  }

  lemma ContinuesTrans(a: Entry, b: Entry, c: Entry)
    requires Continues(a, b) && Continues(b, c)
    ensures Continues(a, c)
  {
  }

  /** However a run continues before the counter wraps, a tournament is there, unchanged but for new
      registrations, unless and until its owner deletes it. */
  lemma {:induction false} OwnedUntilDeleted(s: Store, ops: seq<Op>, id: u32)
    requires Ok(s) && IdsBelow(s) && id in s.byID
    requires (forall i :: 0 <= i < |ops| ==> Proper(ops[i])) && NeverWraps(s, ops)
    requires forall i :: 0 <= i < |ops| ==> ops[i] != OpDelete(id, s.byID[id].owner)
    ensures id in RunFrom(s, ops).byID && Continues(s.byID[id], RunFrom(s, ops).byID[id])
    decreases |ops|
  {
    hide Apply;
    hide EntryOk;
    if ops == [] {
    } else {
      var before := ops[..|ops| - 1];
      NeverWrapsBefore(s, ops);
      hide NeverWraps;
      hide Ok;
      OwnedUntilDeleted(s, before, id);
      KeepsBounds(s, before);
      var mid := RunFrom(s, before);
      KeptOrDeleted(mid, ops[|ops| - 1], id);
      hide IdsBelow;
      ContinuesTrans(s.byID[id], mid.byID[id], RunFrom(s, ops).byID[id]);
    }
  }

  // ---- the store object ---------------------------------------------------

  class Tournaments {
    var byID: map<u32, Entry>
    var nextID: u32

    function View(): Store
      reads this
    {
      Store(byID, nextID)
    }

    constructor ()
      ensures View() == NewStore()
    {
      byID, nextID := map[], 1000;
    }

    method CreateTournament(owner: u64, payload: bytes, mark: bytes, code: bytes) returns (t: Option<Entry>)
      requires |mark| == 8
      modifies this
      ensures (View(), t) == Create(old(View()), owner, payload, mark, code)
    {
      hide Locate;
      hide CodeMatches;
      hide Stamp;
      var i := CodeOffset(payload);
      LocateBounds(payload);
      if |payload| == 0 || |payload| > MAX_BLOB || i < 0 || payload[i..i + 3] != EMPTY_CODE { return None; }
      if |byID| >= MAX_TOURNAMENTS { return None; }
      var id := nextID;
      nextID := (nextID + 1) % 0x1_0000_0000;
      var e := Entry(id, owner, code, mark, Stamp(payload, id, mark, code), [owner]);
      if !ValidStored(e) { return None; }
      byID := byID[id := e];
      return Some(e);
    }

    method JoinTournament(id: u32, pid: u64) returns (ok: bool)
      modifies this
      ensures (View(), ok) == Join(old(View()), id, pid)
    {
      hide CodeMatches;
      if id !in byID || !ValidStored(byID[id]) { return false; }
      var ps := byID[id].participants;
      for i := 0 to |ps|
        invariant pid !in ps[..i] && View() == old(View())
      {
        if ps[i] == pid { return true; }
      }
      byID := byID[id := byID[id].(participants := ps + [pid])];
      return true;
    }

    method DeleteTournament(id: u32, pid: u64) returns (ok: bool)
      modifies this
      ensures (View(), ok) == Delete(old(View()), id, pid)
    {
      hide CodeMatches;
      if id !in byID || !ValidStored(byID[id]) || byID[id].owner != pid { return false; }
      byID := byID - {id};
      return true;
    }

    /** Everything stored is listed, each tournament once: the validity filter drops nothing. */
    method All() returns (out: seq<Entry>)
      requires Ok(View())
      ensures |out| == |byID| && (forall id :: id in byID ==> byID[id] in out)
      ensures forall t :: t in out ==> t.id in byID && byID[t.id] == t
    {
      hide ValidStored;
      out := [];
      var todo := byID.Keys;
      while todo != {}
        invariant todo <= byID.Keys && |out| + |todo| == |byID|
        invariant forall id :: id in byID && id !in todo ==> byID[id] in out
        invariant forall t :: t in out ==> t.id in byID && byID[t.id] == t
        decreases todo
      {
        var id :| id in todo;
        assert EntryOk(byID[id], id);
        if ValidStored(byID[id]) { out := out + [byID[id]]; }
        todo := todo - {id};
      }
    }
  }
}
