/** Deduplicated session creation: the step system of server/rmc_dedup.go around the handler
    createSession of nextendo-nex/matchmaking_handlers.go and its store.

    A create request's handler touches the store in one mutex section and returns later;
    everything else that moves the store is an arbitrary operation of module MatchStore.
 */
module ExactlyOnce {
  import opened Bytes
  import opened Stream
  import opened Session
  import opened Rmc
  import opened DedupSafety
  import D = Dedup
  import H = DedupHistory
  import S = MatchStore

  // ---- the handler --------------------------------------------------------

  const INVALID_ARGUMENT: u32 := 0x8001_000A

  predicate IsCreate(k: D.Key) {
    k.protocol == D.MATCHMAKE_EXTENSION && k.methodID == D.METHOD_CREATE_SESSION
  }

  predicate Parses(st: Settings, k: D.Key) { !TakeAutoMatchmake(st, In(k.body, false)).1.failed }

  function Requested(st: Settings, k: D.Key): MatchmakeSession { TakeAutoMatchmake(st, In(k.body, false)).0 }

  function NewSession(st: Settings, store: S.Store, k: D.Key, draw: S.Draw): MatchmakeSession {
    S.Finalize(Requested(st, k), store.nextGID, k.pid, draw)
  }

  /** The answer of createSession; `ks` is the order in which the parameter map is written out. */
  function Reply(st: Settings, store: S.Store, k: D.Key, draw: S.Draw, ks: seq<bytes>): Message
    requires Parses(st, k) ==> forall x :: x in ks ==> x in NewSession(st, store, k, draw).params
  {
    if Parses(st, k) then
      Success(D.MATCHMAKE_EXTENSION, k.methodID, k.callID,
              SessionOnto(st, NewSession(st, store, k, draw), ks, NO_EXTRAS, []))
    else Failure(D.MATCHMAKE_EXTENSION, k.callID, INVALID_ARGUMENT)
  }

  function StoreAfter(st: Settings, store: S.Store, k: D.Key, draw: S.Draw): S.Store {
    if Parses(st, k) then S.Create(store, k.pid, k.connectionID, Requested(st, k), draw) else store
  }

  // ---- the composed system ------------------------------------------------

  /** `answers` holds the answer of each call whose create handler has been through the store;
      `made` counts, per create request and for everything else, the ids handed out. */
  datatype World = World(d: D.State, store: S.Store, answers: map<nat, Message>, made: multiset<Option<D.Key>>)

  datatype Step =
    | Table(step: D.Step)
    | Handle(c: nat, draw: S.Draw, ks: seq<bytes>)
    | Other(op: S.Op)

  function Start(clock: int, store: S.Store): World { World(D.Initial(clock), store, map[], multiset{}) }

  predicate InHandler(call: D.Call) { call.pc.Running? || call.pc.RunningUnrecorded? }

  /** A create handler returns the answer it computed; other handlers return anything. */
  ghost predicate Enabled(st: Settings, w: World, step: Step) {
    match step
    case Table(t) =>
      && D.Enabled(w.d, t)
      && (t.Return? && IsCreate(w.d.threads[t.c].key) ==> t.c in w.answers && t.out == D.Answer(w.answers[t.c]))
    case Handle(c, draw, ks) =>
      && D.At(w.d, c) && InHandler(w.d.threads[c]) && IsCreate(w.d.threads[c].key) && c !in w.answers
      && (Parses(st, w.d.threads[c].key) ==> Lists(ks, NewSession(st, w.store, w.d.threads[c].key, draw).params))
    case Other(op) => S.Enabled(w.store, op)
  }

  ghost function Apply(cfg: D.Config, st: Settings, w: World, step: Step): World
    requires Enabled(st, w, step)
  {
    match step
    case Table(t) => w.(d := D.Apply(cfg, w.d, t))
    case Handle(c, draw, ks) =>
      var k := w.d.threads[c].key;
      w.(store := StoreAfter(st, w.store, k, draw),
         answers := w.answers[c := Reply(st, w.store, k, draw, ks)],
         made := if Parses(st, k) then w.made + multiset{Some(k)} else w.made)
    case Other(op) =>
      var s' := S.Apply(w.store, op);
      w.(store := s', made := if s'.nextGID != w.store.nextGID then w.made + multiset{None} else w.made)
  }

  ghost function Run(cfg: D.Config, st: Settings, start: World, run: seq<Step>): Option<World> {
    if run == [] then Some(start)
    else
      var last := run[|run| - 1];
      match Run(cfg, st, start, run[..|run| - 1])
      case None => None
      case Some(w) => if Enabled(st, w, last) then Some(Apply(cfg, st, w, last)) else None
  }

  // ---- ids handed out -----------------------------------------------------

  lemma {:induction false} SelectKeepsNext(s: S.Store, order: seq<u32>, src: MatchmakeSession, pid: S.Pid,
                                           classes: S.NatMap, now: int)
    requires forall g :: g in order ==> g in s.gatherings
    ensures S.Select(s, order, src, pid, classes, now).0.nextGID == s.nextGID
    decreases |order|
  {
    hide S.Reaches;
    hide S.HasRoom;
    hide S.Candidate;
    if order == [] {
    } else {
      var gid := order[0];
      assert gid in order && forall g :: g in order[1..] ==> g in order;
      var l := s.gatherings[gid];
      if !S.Candidate(l, src) {
        SelectKeepsNext(s, order[1..], src, pid, classes, now);
      } else {
        SelectKeepsNext(S.Put(s, gid, S.Expire(l, now)), order[1..], src, pid, classes, now);
      }
    }
  }

  function Next(gid: u32): u32 { (gid + 1) % 0x1_0000_0000 }

  /** Every operation hands out one id or none. */
  lemma NextMoves(s: S.Store, op: S.Op)
    requires S.Enabled(s, op)
    ensures S.Apply(s, op).nextGID in {s.nextGID, Next(s.nextGID)}
  {
    hide S.Touch;
    hide S.CodesAfter;
    hide S.Finalize;
    hide S.Seat;
    hide S.Select;
    if op.OpAuto? && !op.solo {
      SelectKeepsNext(s, op.order, op.src, op.pid, op.classes, op.now);
    }
  }

  ghost predicate Numbered(w: World, first: u32) {
    w.store.nextGID == (first + |w.made|) % 0x1_0000_0000
  }

  lemma NumberedStep(cfg: D.Config, st: Settings, w: World, step: Step, first: u32)
    requires Enabled(st, w, step) && Numbered(w, first)
    ensures Numbered(Apply(cfg, st, w, step), first)
  {
    hide D.Apply;
    hide D.Enabled;
    hide S.Finalize;
    hide S.Apply;
    hide TakeAutoMatchmake;
    hide SessionOnto;
    if step.Other? { NextMoves(w.store, step.op); }
  }

  // ---- one key through its phases -----------------------------------------

  datatype Phase = Idle | Busy(id: nat, c: nat) | Stored(id: nat, c: nat, r: Message, expires: int)

  /** A call that is not the one executing: not started, waiting, or given the stored response. */
  predicate Bystander(call: D.Call, r: Option<Message>) {
    && !call.ran
    && (call.pc.Start? || call.pc.Locking? || call.pc.Waiting? || (r.Some? && call.pc == D.Finished(D.Answer(r.value))))
  }

  predicate Rest(w: World, k: D.Key, but: Option<nat>, r: Option<Message>) {
    forall c: nat :: c < |w.d.threads| && w.d.threads[c].key == k && Some(c) != but ==>
      Bystander(w.d.threads[c], r) && c !in w.answers
  }

  function Made(w: World, ok: bool, c: nat): nat { if c in w.answers && ok then 1 else 0 }

  predicate InPhase(w: World, k: D.Key, ok: bool, p: Phase) {
    && (forall c :: c in w.answers ==> c < |w.d.threads|)
    && match p
       case Idle => k !in w.d.table && Rest(w, k, None, None) && w.made[Some(k)] == 0
       case Busy(id, c) =>
         && k in w.d.table && w.d.table[k] == D.InFlight(id)
         && Executing(w, k, id, c) && Rest(w, k, Some(c), None)
         && w.made[Some(k)] == Made(w, ok, c)
       case Stored(id, c, r, expires) =>
         && k in w.d.table && w.d.table[k] == D.Done(id, r, expires)
         && D.At(w.d, c) && w.d.threads[c].key == k && w.d.threads[c].pc == D.Finished(D.Answer(r))
         && c in w.answers && w.answers[c] == r && Rest(w, k, Some(c), Some(r))
         && w.made[Some(k)] == Made(w, ok, c)
  }

  predicate Executing(w: World, k: D.Key, id: nat, c: nat) {
    && D.At(w.d, c) && w.d.threads[c].key == k
    && (|| w.d.threads[c].pc == D.Running(id)
        || (c in w.answers && w.d.threads[c].pc == D.Settling(id, D.Answer(w.answers[c]))))
  }

  /** A lookup can place a new entry: there is room, or an entry that has run out at the caller's reading. */
  predicate Room(cfg: D.Config, t: D.Table, now: int) {
    |t| < cfg.maxEntries || exists x :: x in t && D.Expired(t[x], now)
  }

  /** The circumstances of the promise at one step: the first lookup for the key finds room, and a
      stored response for it has not expired. */
  predicate Steady(cfg: D.Config, w: World, step: Step, k: D.Key) {
    && (k in w.d.table && w.d.table[k].Done? ==> w.d.clock < w.d.table[k].expires)
    && (step.Table? && step.step.Lock? && D.Enabled(w.d, step.step) && w.d.threads[step.step.c].key == k
        && (forall c :: 0 <= c < |w.d.threads| && w.d.threads[c].key == k ==> !w.d.threads[c].ran)
        ==> Room(cfg, w.d.table, w.d.threads[step.step.c].pc.now))
  }

  lemma PruneDrops(t: D.Table, x: D.Key, now: int)
    requires x in t && D.Expired(t[x], now)
    ensures |D.Prune(t, now)| < |t|
  {
    assert D.Prune(t, now).Keys <= t.Keys - {x};
    SubsetCard(D.Prune(t, now).Keys, t.Keys - {x});
  }

  lemma FullLookup(cfg: D.Config, t: D.Table, calls: u64, newId: nat, k: D.Key, now: int)
    requires k !in t && !Room(cfg, t, now)
    ensures var l := D.Lookup(cfg, t, calls, newId, k, now); l.verdict.Overflow? && l.table == t
  {
    assert D.Prune(t, now) == t;
    assert t - {k} == t;
  }

  lemma RoomyLookup(cfg: D.Config, t: D.Table, calls: u64, newId: nat, k: D.Key, now: int)
    requires |t| <= cfg.maxEntries && (Room(cfg, t, now) || k in t)
    ensures !D.Lookup(cfg, t, calls, newId, k, now).verdict.Overflow?
  {
    var t1 := D.Swept(cfg, t, calls, now);
    SweptFacts(cfg, t, calls, now);
    WithoutKey(t1, k);
    if |t| >= cfg.maxEntries && k !in t {
      var x :| x in t && D.Expired(t[x], now);
      PruneDrops(t, x, now);
    }
    if k in t && k !in t1 { PruneDrops(t, k, now); }
    hide D.Prune;
  }

  /** A lookup leaves its call unrecorded exactly when the key has no entry and the table is full of
      entries that have not run out. */
  lemma OverflowExactly(cfg: D.Config, t: D.Table, calls: u64, newId: nat, k: D.Key, now: int)
    requires |t| <= cfg.maxEntries
    ensures D.Lookup(cfg, t, calls, newId, k, now).verdict.Overflow? <==>
              k !in t && |t| >= cfg.maxEntries && forall x :: x in t ==> !D.Expired(t[x], now)
  {
    hide D.Lookup;
    if k !in t && !Room(cfg, t, now) { FullLookup(cfg, t, calls, newId, k, now); }
    else { RoomyLookup(cfg, t, calls, newId, k, now); }
  }

  /** A move of a call with another key that leaves the key's entry alone. */
  lemma PhaseFrame(w: World, d: D.State, c: nat, k: D.Key, ok: bool, p: Phase)
    requires InPhase(w, k, ok, p) && D.At(w.d, c) && w.d.threads[c].key != k
    requires |d.threads| == |w.d.threads| && d.threads == w.d.threads[c := d.threads[c]] && d.threads[c].key != k
    requires k in d.table <==> k in w.d.table
    requires k in d.table ==> d.table[k] == w.d.table[k]
    ensures InPhase(w.(d := d), k, ok, p)
  {
    hide Parses;
    hide Bystander;
  }

  /** A lookup for another key leaves the entry alone. */
  lemma ForeignLock(cfg: D.Config, w: World, c: nat, k: D.Key, ok: bool, p: Phase)
    requires Owned(cfg, w.d) && D.Enabled(w.d, D.Lock(c)) && w.d.threads[c].key != k
    requires InPhase(w, k, ok, p) && Steady(cfg, w, Table(D.Lock(c)), k)
    ensures InPhase(w.(d := D.Apply(cfg, w.d, D.Lock(c))), k, ok, p)
  {
    hide D.Lookup;
    hide Owned;
    hide InPhase;
    H.NowPast(cfg, w.d, c);
    LookupTable(cfg, w.d.table, w.d.calls, |w.d.owners|, w.d.threads[c].key, w.d.threads[c].pc.now);
    PhaseFrame(w, D.Apply(cfg, w.d, D.Lock(c)), c, k, ok, p);
  }

  lemma Within(cfg: D.Config, d: D.State)
    requires Owned(cfg, d)
    ensures |d.table| <= cfg.maxEntries
  {
  }

  /** The first lookup for the key executes. */
  lemma FirstLock(cfg: D.Config, w: World, c: nat, k: D.Key, ok: bool)
    requires Owned(cfg, w.d) && D.Enabled(w.d, D.Lock(c)) && w.d.threads[c].key == k
    requires InPhase(w, k, ok, Idle) && Steady(cfg, w, Table(D.Lock(c)), k)
    ensures InPhase(w.(d := D.Apply(cfg, w.d, D.Lock(c))), k, ok, Busy(|w.d.owners|, c))
  {
    hide D.Lookup;
    Within(cfg, w.d);
    hide Owned;
    hide Room;
    LookupVerdict(cfg, w.d.table, w.d.calls, |w.d.owners|, k, w.d.threads[c].pc.now);
    RoomyLookup(cfg, w.d.table, w.d.calls, |w.d.owners|, k, w.d.threads[c].pc.now);
  }

  /** Later ones wait or are answered. */
  lemma LaterLock(cfg: D.Config, w: World, c: nat, k: D.Key, ok: bool, p: Phase)
    requires Owned(cfg, w.d) && D.Enabled(w.d, D.Lock(c)) && w.d.threads[c].key == k && !p.Idle?
    requires InPhase(w, k, ok, p) && Steady(cfg, w, Table(D.Lock(c)), k)
    ensures InPhase(w.(d := D.Apply(cfg, w.d, D.Lock(c))), k, ok, p)
  {
    hide D.Lookup;
    hide Owned;
    hide Room;
    H.NowPast(cfg, w.d, c);
    LookupVerdict(cfg, w.d.table, w.d.calls, |w.d.owners|, k, w.d.threads[c].pc.now);
  }

  lemma OwnLock(cfg: D.Config, w: World, c: nat, k: D.Key, ok: bool, p: Phase) returns (p': Phase)
    requires Owned(cfg, w.d) && D.Enabled(w.d, D.Lock(c)) && w.d.threads[c].key == k
    requires InPhase(w, k, ok, p) && Steady(cfg, w, Table(D.Lock(c)), k)
    ensures InPhase(w.(d := D.Apply(cfg, w.d, D.Lock(c))), k, ok, p')
  {
    hide InPhase;
    hide Owned;
    hide Steady;
    hide D.Apply;
    if p.Idle? {
      FirstLock(cfg, w, c, k, ok);
      p' := Busy(|w.d.owners|, c);
    } else {
      LaterLock(cfg, w, c, k, ok, p);
      p' := p;
    }
  }

  lemma ForeignDefer(cfg: D.Config, w: World, c: nat, k: D.Key, ok: bool, p: Phase)
    requires D.Enabled(w.d, D.Defer(c)) && InPhase(w, k, ok, p) && w.d.threads[c].key != k
    ensures InPhase(w.(d := D.Apply(cfg, w.d, D.Defer(c))), k, ok, p)
  {
    hide InPhase;
    var me := w.d.threads[c];
    if D.StillCurrent(w.d.table, me.key, me.pc.id) {
      SettleFacts(cfg, w.d.table, me.key, me.pc.id, D.ResponseOf(me.pc.out), w.d.clock);
    }
    hide D.Settle;
    PhaseFrame(w, D.Apply(cfg, w.d, D.Defer(c)), c, k, ok, p);
  }

  lemma OwnDefer(cfg: D.Config, w: World, c: nat, k: D.Key, ok: bool, p: Phase) returns (p': Phase)
    requires D.Enabled(w.d, D.Defer(c)) && InPhase(w, k, ok, p) && w.d.threads[c].key == k
    ensures InPhase(w.(d := D.Apply(cfg, w.d, D.Defer(c))), k, ok, p')
  {
    hide Parses;
    assert p.Busy? && p.c == c;
    p' := Stored(p.id, c, w.answers[c], w.d.clock + cfg.ttl);
  }

  /** A bystander reads the clock or is woken. */
  lemma BystanderMove(w: World, t: D.Step, cfg: D.Config, c: nat, k: D.Key, ok: bool, p: Phase)
    requires D.Enabled(w.d, t) && InPhase(w, k, ok, p) && D.At(w.d, c) && w.d.threads[c].key == k
    requires t == D.ReadClock(c) || t == D.Wake(c)
    ensures InPhase(w.(d := D.Apply(cfg, w.d, t)), k, ok, p)
  {
  }

  /** The executor returns with its answer. */
  lemma ExecutorReturns(w: World, t: D.Step, cfg: D.Config, c: nat, k: D.Key, ok: bool, p: Phase)
    requires D.Enabled(w.d, t) && InPhase(w, k, ok, p) && D.At(w.d, c) && w.d.threads[c].key == k
    requires t.Return? && t.c == c && c in w.answers && t.out == D.Answer(w.answers[c])
    ensures InPhase(w.(d := D.Apply(cfg, w.d, t)), k, ok, p)
  {
  }

  /** The clock moves or a call arrives. */
  lemma Ambient(w: World, t: D.Step, cfg: D.Config, k: D.Key, ok: bool, p: Phase)
    requires D.Enabled(w.d, t) && InPhase(w, k, ok, p) && (t.Tick? || t.Arrive?)
    ensures InPhase(w.(d := D.Apply(cfg, w.d, t)), k, ok, p)
  {
  }

  /** The steps that move one call without consulting the table. */
  lemma QuietStep(cfg: D.Config, st: Settings, w: World, t: D.Step, k: D.Key, p: Phase)
    requires Enabled(st, w, Table(t)) && IsCreate(k) && InPhase(w, k, Parses(st, k), p) && !t.Lock? && !t.Defer?
    ensures InPhase(w.(d := D.Apply(cfg, w.d, t)), k, Parses(st, k), p)
  {
    hide Parses;
    hide InPhase;
    if t.Tick? || t.Arrive? { Ambient(w, t, cfg, k, Parses(st, k), p); }
    else if w.d.threads[t.c].key == k {
      if t.Return? { ExecutorReturns(w, t, cfg, t.c, k, Parses(st, k), p); }
      else { BystanderMove(w, t, cfg, t.c, k, Parses(st, k), p); }
    }
    else { PhaseFrame(w, D.Apply(cfg, w.d, t), t.c, k, Parses(st, k), p); }
  }

  /** Other operations on the store leave the key's phase alone. */
  lemma OtherStep(w: World, store: S.Store, made: multiset<Option<D.Key>>, k: D.Key, ok: bool, p: Phase)
    requires InPhase(w, k, ok, p) && made[Some(k)] == w.made[Some(k)]
    ensures InPhase(w.(store := store, made := made), k, ok, p)
  {
    hide Bystander;
  }

  /** A create handler goes through the store: once for the key's executor, never for a bystander. */
  lemma HandleStep(w: World, store: S.Store, c: nat, r: Message, made: multiset<Option<D.Key>>,
                   k: D.Key, ok: bool, p: Phase)
    requires InPhase(w, k, ok, p) && D.At(w.d, c) && InHandler(w.d.threads[c]) && c !in w.answers
    requires made[Some(k)] == w.made[Some(k)] + (if ok && w.d.threads[c].key == k then 1 else 0)
    ensures InPhase(w.(store := store, answers := w.answers[c := r], made := made), k, ok, p)
  {
  }

  lemma StoreStep(cfg: D.Config, st: Settings, w: World, step: Step, k: D.Key, p: Phase)
    requires Enabled(st, w, step) && InPhase(w, k, Parses(st, k), p) && !step.Table?
    ensures InPhase(Apply(cfg, st, w, step), k, Parses(st, k), p)
  {
    hide Parses;
    hide NewSession;
    hide InPhase;
    hide S.Apply;
    hide S.Enabled;
    hide TakeAutoMatchmake;
    hide SessionOnto;
    hide StoreAfter;
    var w' := Apply(cfg, st, w, step);
    if step.Other? { OtherStep(w, w'.store, w'.made, k, Parses(st, k), p); }
    else { HandleStep(w, w'.store, step.c, w'.answers[step.c], w'.made, k, Parses(st, k), p); }
  }

  lemma PhaseStep(cfg: D.Config, st: Settings, w: World, step: Step, k: D.Key, p: Phase) returns (p': Phase)
    requires Owned(cfg, w.d) && IsCreate(k) && Enabled(st, w, step) && Steady(cfg, w, step, k)
    requires InPhase(w, k, Parses(st, k), p)
    ensures InPhase(Apply(cfg, st, w, step), k, Parses(st, k), p')
  {
    hide InPhase;
    hide Owned;
    hide Parses;
    hide D.Apply;
    hide D.Enabled;
    hide S.Apply;
    p' := p;
    if !step.Table? { StoreStep(cfg, st, w, step, k, p); }
    else if step.step.Lock? {
      assert D.Enabled(w.d, step.step);
      p' := LockStep(cfg, w, step.step.c, k, Parses(st, k), p);
    } else if step.step.Defer? {
      assert D.Enabled(w.d, step.step);
      p' := DeferStep(cfg, w, step.step.c, k, Parses(st, k), p);
    }
    else { QuietStep(cfg, st, w, step.step, k, p); }
  }

  lemma LockStep(cfg: D.Config, w: World, c: nat, k: D.Key, ok: bool, p: Phase) returns (p': Phase)
    requires Owned(cfg, w.d) && D.Enabled(w.d, D.Lock(c))
    requires InPhase(w, k, ok, p) && Steady(cfg, w, Table(D.Lock(c)), k)
    ensures InPhase(w.(d := D.Apply(cfg, w.d, D.Lock(c))), k, ok, p')
  {
    hide InPhase;
    hide Owned;
    hide D.Apply;
    p' := p;
    if w.d.threads[c].key == k { p' := OwnLock(cfg, w, c, k, ok, p); } else { ForeignLock(cfg, w, c, k, ok, p); }
  }

  lemma DeferStep(cfg: D.Config, w: World, c: nat, k: D.Key, ok: bool, p: Phase) returns (p': Phase)
    requires D.Enabled(w.d, D.Defer(c)) && InPhase(w, k, ok, p)
    ensures InPhase(w.(d := D.Apply(cfg, w.d, D.Defer(c))), k, ok, p')
  {
    hide InPhase;
    hide D.Apply;
    p' := p;
    if w.d.threads[c].key == k { p' := OwnDefer(cfg, w, c, k, ok, p); } else { ForeignDefer(cfg, w, c, k, ok, p); }
  }

  // ---- whole runs ---------------------------------------------------------

  ghost predicate AlwaysSteady(cfg: D.Config, st: Settings, start: World, run: seq<Step>, k: D.Key) {
    forall i :: 0 <= i < |run| && Run(cfg, st, start, run[..i]).Some? ==>
      Steady(cfg, Run(cfg, st, start, run[..i]).value, run[i], k)
  }

  lemma {:induction false} RunPhase(cfg: D.Config, st: Settings, clock: int, store: S.Store, run: seq<Step>, k: D.Key)
      returns (p: Phase)
    requires D.Proper(cfg) && IsCreate(k) && Run(cfg, st, Start(clock, store), run).Some?
    requires AlwaysSteady(cfg, st, Start(clock, store), run, k)
    ensures var w := Run(cfg, st, Start(clock, store), run).value;
            Owned(cfg, w.d) && InPhase(w, k, Parses(st, k), p) && Numbered(w, store.nextGID)
    decreases |run|
  {
    hide Parses;
    hide Apply;
    hide Enabled;
    hide Steady;
    if run == [] {
      OwnedInitially(cfg, clock);
      p := Idle;
    } else {
      hide Owned;
      hide InPhase;
      hide Numbered;
      var before, last := run[..|run| - 1], run[|run| - 1];
      assert AlwaysSteady(cfg, st, Start(clock, store), before, k) by {
        forall i | 0 <= i < |before| && Run(cfg, st, Start(clock, store), before[..i]).Some?
          ensures Steady(cfg, Run(cfg, st, Start(clock, store), before[..i]).value, before[i], k)
        {
          assert before[..i] == run[..i];
        }
      }
      var p0 := RunPhase(cfg, st, clock, store, before, k);
      var w := Run(cfg, st, Start(clock, store), before).value;
      assert Steady(cfg, Run(cfg, st, Start(clock, store), run[..|run| - 1]).value, run[|run| - 1], k);
      p := PhaseStep(cfg, st, w, last, k, p0);
      NumberedStep(cfg, st, w, last, store.nextGID);
      OwnedWorld(cfg, st, w, last);
    }
  }

  lemma OwnedWorld(cfg: D.Config, st: Settings, w: World, step: Step)
    requires D.Proper(cfg) && Owned(cfg, w.d) && Enabled(st, w, step)
    ensures Owned(cfg, Apply(cfg, st, w, step).d)
  {
    hide Owned;
    hide D.Apply;
    hide D.Enabled;
    if step.Table? { OwnedStep(cfg, w.d, step.step); }
  }

  predicate Finished(w: World, c: nat, k: D.Key) {
    D.At(w.d, c) && w.d.threads[c].key == k && w.d.threads[c].pc.Finished?
  }

  predicate Ran(w: World, c: nat, k: D.Key) { D.At(w.d, c) && w.d.threads[c].key == k && w.d.threads[c].ran }

  /** However many identical create requests arrive, concurrently or as retries before expiry, at
      most one of them runs the handler, all that finish are given the same answer, and together
      they advance the id counter by one if the body parses and not at all otherwise. */
  lemma ExactlyOnce(cfg: D.Config, st: Settings, clock: int, store: S.Store, run: seq<Step>, k: D.Key)
    requires D.Proper(cfg) && IsCreate(k) && Run(cfg, st, Start(clock, store), run).Some?
    requires AlwaysSteady(cfg, st, Start(clock, store), run, k)
    ensures var w := Run(cfg, st, Start(clock, store), run).value;
            && (forall c: nat, d: nat :: Ran(w, c, k) && Ran(w, d, k) ==> c == d)
            && (forall c: nat, d: nat :: Finished(w, c, k) && Finished(w, d, k) ==>
                  w.d.threads[c].pc.out.Answer? && w.d.threads[c].pc.out == w.d.threads[d].pc.out)
            && (forall c: nat :: Finished(w, c, k) ==> w.made[Some(k)] == if Parses(st, k) then 1 else 0)
            && w.made[Some(k)] <= 1
            && w.store.nextGID == (store.nextGID + |w.made|) % 0x1_0000_0000
  {
    hide Run;
    hide Owned;
    hide Parses;
    var p := RunPhase(cfg, st, clock, store, run, k);
  }

  // ---- why the first lookup must find room --------------------------------

  /** Against a table full of unexpired entries a call on a new key runs the handler and leaves the table
      as it was, so that the next identical call runs it again; in every other case it leaves an entry. */
  lemma FullTableRepeats(cfg: D.Config, s: D.State, c: nat)
    requires D.At(s, c) && s.threads[c].pc.Locking? && |s.table| <= cfg.maxEntries
    ensures var k := s.threads[c].key;
            var s' := D.DoLock(cfg, s, c);
            && (s'.threads[c].pc.RunningUnrecorded? <==> k !in s.table && !Room(cfg, s.table, s.threads[c].pc.now))
            && (s'.threads[c].pc.RunningUnrecorded? ==>
                  s' == s.(threads := s.threads[c := s.threads[c].(pc := D.RunningUnrecorded, ran := true)],
                           calls := s'.calls, log := s'.log))
            && (!s'.threads[c].pc.RunningUnrecorded? ==> k in s'.table)
  {
    hide D.Lookup;
    var k, now := s.threads[c].key, s.threads[c].pc.now;
    LookupVerdict(cfg, s.table, s.calls, |s.owners|, k, now);
    if k !in s.table && !Room(cfg, s.table, now) { FullLookup(cfg, s.table, s.calls, |s.owners|, k, now); }
    else { RoomyLookup(cfg, s.table, s.calls, |s.owners|, k, now); }
  }

  lemma RunSnoc(cfg: D.Config, st: Settings, start: World, run: seq<Step>, step: Step)
    requires Run(cfg, st, start, run).Some? && Enabled(st, Run(cfg, st, start, run).value, step)
    ensures Run(cfg, st, start, run + [step]) == Some(Apply(cfg, st, Run(cfg, st, start, run).value, step))
  {
    hide Apply;
    hide Enabled;
    assert (run + [step])[..|run|] == run;
  }

  /** Every finite map has a listing of its keys. */
  lemma Listing(m: Params) returns (ks: seq<bytes>)
    ensures Lists(ks, m)
  {
    ks := [];
    var todo := m.Keys;
    while todo != {}
      invariant todo <= m.Keys && (forall k :: k in ks <==> k in m && k !in todo)
      invariant forall i, j :: 0 <= i < j < |ks| ==> ks[i] != ks[j]
      decreases todo
    {
      var k :| k in todo;
      assert forall i :: 0 <= i < |ks| ==> ks[i] in ks;
      ks := ks + [k];
      todo := todo - {k};
    }
  }

  /** The requests that fill the table: longer than `k`, each by another number of bytes. */
  function Filler(k: D.Key, i: nat): D.Key { k.(body := k.body + seq(i + 1, _ => 0)) }

  /** The table holds `n` such requests, and the handler of each is running. */
  ghost predicate Filled(d: D.State, k: D.Key, n: nat) {
    && |d.table| == n && |d.threads| == n
    && forall x :: x in d.table ==> d.table[x].InFlight? && |k.body| < |x.body| <= |k.body| + n
  }

  /** Two identical calls about to consult a full table none of whose handlers is over. */
  ghost predicate Crowded(cfg: D.Config, d: D.State, k: D.Key, n: nat) {
    && |d.table| >= cfg.maxEntries && k !in d.table && (forall x :: x in d.table ==> d.table[x].InFlight?)
    && |d.threads| == n + 2
    && d.threads[n] == D.Call(k, D.Locking(d.clock), [], false)
    && d.threads[n + 1] == D.Call(k, D.Locking(d.clock), [], false)
  }

  lemma FreshLookup(cfg: D.Config, t: D.Table, calls: u64, newId: nat, k: D.Key, now: int)
    requires k !in t && |t| < cfg.maxEntries && forall x :: x in t ==> t[x].InFlight?
    ensures var l := D.Lookup(cfg, t, calls, newId, k, now);
            l.verdict.Execute? && l.table == t[k := D.InFlight(newId)]
  {
    assert D.Prune(t, now) == t;
    assert t - {k} == t;
  }

  lemma FillOne(cfg: D.Config, d: D.State, k: D.Key, n: nat)
    requires |d.threads| == n + 1 && n < cfg.maxEntries && Filled(d.(threads := d.threads[..n]), k, n)
    requires d.threads[n] == D.Call(Filler(k, n), D.Locking(d.clock), [], false)
    ensures Filled(D.Apply(cfg, d, D.Lock(n)), k, n + 1) && D.Apply(cfg, d, D.Lock(n)).clock == d.clock
  {
    hide D.Lookup;
    FreshLookup(cfg, d.table, d.calls, |d.owners|, Filler(k, n), d.clock);
  }

  lemma {:induction false} FilledReached(cfg: D.Config, st: Settings, clock: int, store: S.Store, k: D.Key, n: nat)
      returns (run: seq<Step>)
    requires IsCreate(k) && n <= cfg.maxEntries
    ensures var w := Run(cfg, st, Start(clock, store), run);
            w.Some? && w.value == Start(clock, store).(d := w.value.d) && Filled(w.value.d, k, n)
    decreases n
  {
    hide Parses;
    hide NewSession;
    if n == 0 {
      run := [];
    } else {
      var w0, c := Start(clock, store), n - 1;
      hide Run;
      hide D.DoLock;
      run := FilledReached(cfg, st, clock, store, k, c);
      ghost var d := Run(cfg, st, w0, run).value.d;
      run := Extended(cfg, st, w0, run, Table(D.Arrive(Filler(k, c))));
      run := Extended(cfg, st, w0, run, Table(D.ReadClock(c)));
      ghost var d' := Run(cfg, st, w0, run).value.d;
      assert d'.(threads := d'.threads[..c]) == d;
      FillOne(cfg, d', k, c);
      run := Extended(cfg, st, w0, run, Table(D.Lock(c)));
    }
  }

  /** Such a state is reached from an empty table of any size. */
  lemma CrowdedReached(cfg: D.Config, st: Settings, clock: int, store: S.Store, k: D.Key) returns (run: seq<Step>)
    requires IsCreate(k) && D.Proper(cfg)
    ensures var w := Run(cfg, st, Start(clock, store), run);
            && w.Some? && Crowded(cfg, w.value.d, k, cfg.maxEntries)
            && w.value == Start(clock, store).(d := w.value.d)
  {
    var w0, n := Start(clock, store), cfg.maxEntries;
    hide Parses;
    hide NewSession;
    hide Run;
    hide D.DoLock;
    run := FilledReached(cfg, st, clock, store, k, n);
    run := Extended(cfg, st, w0, run, Table(D.Arrive(k)));
    run := Extended(cfg, st, w0, run, Table(D.Arrive(k)));
    run := Extended(cfg, st, w0, run, Table(D.ReadClock(n)));
    run := Extended(cfg, st, w0, run, Table(D.ReadClock(n + 1)));
  }

  lemma Extended(cfg: D.Config, st: Settings, start: World, run: seq<Step>, step: Step) returns (longer: seq<Step>)
    requires Run(cfg, st, start, run).Some? && Enabled(st, Run(cfg, st, start, run).value, step)
    ensures Run(cfg, st, start, longer) == Some(Apply(cfg, st, Run(cfg, st, start, run).value, step))
  {
    hide Apply;
    hide Enabled;
    longer := run + [step];
    RunSnoc(cfg, st, start, run, step);
  }

  lemma OneEnters(cfg: D.Config, d: D.State, k: D.Key, c: nat)
    requires |d.table| >= cfg.maxEntries && k !in d.table && (forall x :: x in d.table ==> d.table[x].InFlight?)
    requires D.At(d, c) && d.threads[c] == D.Call(k, D.Locking(d.clock), [], false)
    ensures var d' := D.Apply(cfg, d, D.Lock(c));
            && d'.table == d.table && d'.clock == d.clock
            && d'.threads == d.threads[c := D.Call(k, D.RunningUnrecorded, [], true)]
  {
    hide D.Lookup;
    FullLookup(cfg, d.table, d.calls, |d.owners|, k, d.clock);
  }

  /** From there both calls enter the handler. */
  lemma BothEnter(cfg: D.Config, st: Settings, w0: World, run: seq<Step>, k: D.Key, n: nat)
      returns (longer: seq<Step>)
    requires Run(cfg, st, w0, run).Some? && Crowded(cfg, Run(cfg, st, w0, run).value.d, k, n)
    ensures var w := Run(cfg, st, w0, run).value;
            var w' := Run(cfg, st, w0, longer);
            && w'.Some? && w'.value == w.(d := w'.value.d) && |w'.value.d.threads| == n + 2
            && w'.value.d.threads[n] == D.Call(k, D.RunningUnrecorded, [], true)
            && w'.value.d.threads[n + 1] == D.Call(k, D.RunningUnrecorded, [], true)
  {
    hide Parses;
    hide NewSession;
    hide Run;
    hide D.DoLock;
    OneEnters(cfg, Run(cfg, st, w0, run).value.d, k, n);
    longer := Extended(cfg, st, w0, run, Table(D.Lock(n)));
    OneEnters(cfg, Run(cfg, st, w0, longer).value.d, k, n + 1);
    longer := Extended(cfg, st, w0, longer, Table(D.Lock(n + 1)));
  }

  /** A handler that has not been through the store makes a gathering there. */
  lemma OneHandles(cfg: D.Config, st: Settings, w0: World, run: seq<Step>, c: nat, k: D.Key, draw: S.Draw)
      returns (longer: seq<Step>)
    requires IsCreate(k) && Parses(st, k) && Run(cfg, st, w0, run).Some?
    requires var w := Run(cfg, st, w0, run).value;
             D.At(w.d, c) && w.d.threads[c] == D.Call(k, D.RunningUnrecorded, [], true) && c !in w.answers
    ensures var w := Run(cfg, st, w0, run).value;
            var w' := Run(cfg, st, w0, longer);
            && w'.Some? && w'.value.d == w.d && w'.value.answers.Keys == w.answers.Keys + {c}
            && w'.value.made[Some(k)] == w.made[Some(k)] + 1
            && w'.value.store.nextGID == Next(w.store.nextGID)
  {
    hide Parses;
    hide Run;
    hide Reply;
    hide Requested;
    hide S.Finalize;
    var w := Run(cfg, st, w0, run).value;
    var ks := Listing(NewSession(st, w.store, k, draw).params);
    longer := Extended(cfg, st, w0, run, Handle(c, draw, ks));
  }

  /** So both make a gathering. */
  lemma CrowdedCreatesTwice(cfg: D.Config, st: Settings, w0: World, run: seq<Step>, k: D.Key, n: nat, draw: S.Draw)
      returns (longer: seq<Step>)
    requires IsCreate(k) && Parses(st, k) && Run(cfg, st, w0, run).Some?
    requires var w := Run(cfg, st, w0, run).value; Crowded(cfg, w.d, k, n) && w.answers == map[]
    ensures var w := Run(cfg, st, w0, run).value;
            var w' := Run(cfg, st, w0, longer);
            && w'.Some? && w'.value.made[Some(k)] == w.made[Some(k)] + 2
            && w'.value.store.nextGID == Next(Next(w.store.nextGID))
  {
    hide Parses;
    hide Run;
    longer := BothEnter(cfg, st, w0, run, k, n);
    longer := OneHandles(cfg, st, w0, longer, n, k, draw);
    longer := OneHandles(cfg, st, w0, longer, n + 1, k, draw);
  }

  /** Where the condition fails so does the promise: for every create request that parses, and a table of any
      size, there is a run in which two identical requests make two gatherings. */
  lemma CreatedTwice(cfg: D.Config, st: Settings, clock: int, store: S.Store, k: D.Key, draw: S.Draw)
      returns (run: seq<Step>)
    requires D.Proper(cfg) && IsCreate(k) && Parses(st, k)
    ensures var w := Run(cfg, st, Start(clock, store), run);
            && w.Some? && w.value.made[Some(k)] == 2
            && w.value.store.nextGID == Next(Next(store.nextGID))
  {
    hide Run;
    hide Parses;
    run := CrowdedReached(cfg, st, clock, store, k);
    run := CrowdedCreatesTwice(cfg, st, Start(clock, store), run, k, cfg.maxEntries, draw);
  }
}
