/** The RMC mutation deduplicator of server/rmc_dedup.go as a step system.

    Every mutex section is one atomic step. A caller is a call with a program
    counter; reading the clock and taking the lock are separate steps, so the
    reading may be stale when the table is consulted. The wrapped handler is
    arbitrary: it may answer, return nil or panic.
 */
module Dedup {
  import opened Bytes
  import opened Rmc

  // ---- the table and its two critical sections ----------------------------

  /** The deduplication key. The body stands for its SHA-256, taken to be injective. */
  datatype Key = Key(connectionID: u32, pid: u64, protocol: u16, methodID: u32, callID: u32, body: bytes)

  /** An entry: its handler is still running, or its response is kept until `expires`. */
  datatype Slot = InFlight(id: nat) | Done(id: nat, response: Message, expires: int)

  type Table = map<Key, Slot>

  datatype Config = Config(ttl: int, maxEntries: int)

  const DEFAULT_TTL := 20_000_000_000
  const DEFAULT_ENTRIES := 4096

  function NewConfig(ttl: int, maxEntries: int): (c: Config)
    ensures Proper(c)
  {
    Config(if ttl <= 0 then DEFAULT_TTL else ttl, if maxEntries <= 0 then DEFAULT_ENTRIES else maxEntries)
  }

  predicate Proper(c: Config) { c.ttl > 0 && c.maxEntries > 0 }

  predicate Expired(slot: Slot, now: int) { slot.Done? && now >= slot.expires }

  function Prune(t: Table, now: int): Table {
    map k | k in t && !Expired(t[k], now) :: t[k]
  }

  datatype Verdict = Wait(id: nat) | Reply(response: Message) | Overflow | Execute(id: nat)

  datatype Looked = Looked(table: Table, calls: u64, verdict: Verdict)

  function Bump(calls: u64): u64 { (calls + 1) % 0x1_0000_0000_0000_0000 }

  /** The table after the occasional pruning that opens a lookup. */
  function Swept(c: Config, t: Table, calls: u64, now: int): Table {
    if Bump(calls) % 256 == 0 || |t| >= c.maxEntries then Prune(t, now) else t
  }

  /** The lookup proper, on the swept table. */
  function Consult(c: Config, t: Table, calls: u64, newId: nat, key: Key, now: int): Looked {
    if key in t && t[key].InFlight? then Looked(t, calls, Wait(t[key].id))
    else if key in t && now < t[key].expires then Looked(t, calls, Reply(t[key].response))
    else
      var t2 := t - {key};
      if |t2| >= c.maxEntries then Looked(t2, calls, Overflow)
      else Looked(t2[key := InFlight(newId)], calls, Execute(newId))
  }

  /** The first critical section; `newId` is the identity of the entry it may create. */
  function Lookup(c: Config, t: Table, calls: u64, newId: nat, key: Key, now: int): Looked {
    Consult(c, Swept(c, t, calls, now), Bump(calls), newId, key, now)
  }

  /** Whether the entry an executor created is still the one in the table. */
  predicate StillCurrent(t: Table, key: Key, id: nat) { key in t && t[key].id == id }

  /** The deferred critical section: no response removes the entry, a response is kept for the ttl. */
  function Settle(c: Config, t: Table, key: Key, id: nat, response: Option<Message>, now: int): Table {
    if !StillCurrent(t, key, id) then t
    else match response
      case None => t - {key}
      case Some(r) => t[key := Done(id, r, now + c.ttl)]
  }

  // ---- calls and steps ----------------------------------------------------

  datatype Outcome = Answer(response: Message) | Nil | Panic

  function ResponseOf(o: Outcome): Option<Message> {
    match o case Answer(r) => Some(r) case Nil => None case Panic => None
  }

  datatype Pc =
    | Start                          // about to read the clock
    | Locking(now: int)              // clock read, lock not yet taken
    | Waiting(id: nat)               // blocked on the channel of entry `id`
    | Running(id: nat)               // in the handler, having created entry `id`
    | RunningUnrecorded              // in the handler because the table was full
    | Settling(id: nat, out: Outcome) // handler over, deferred section not yet run
    | Finished(out: Outcome)

  /** `waits` lists the entries the call has waited on, `ran` whether it ran the handler itself. */
  datatype Call = Call(key: Key, pc: Pc, waits: seq<nat>, ran: bool)

  datatype Event =
    | Began(key: Key, entry: Option<nat>, at: int)
    | Cached(key: Key, id: nat, response: Message, expires: int)
    | Released(key: Key, id: nat)

  datatype Owner = Owner(call: nat, key: Key)

  /** `owners[id]` is the call that created entry `id`; `closed` are the entries whose channel is closed. */
  datatype State = State(
    clock: int, table: Table, calls: u64,
    owners: seq<Owner>, closed: set<nat>, threads: seq<Call>, log: seq<Event>)

  datatype Step =
    | Tick(now: int)
    | Arrive(key: Key)
    | ReadClock(c: nat)
    | Lock(c: nat)
    | Wake(c: nat)
    | Return(c: nat, out: Outcome)
    | Defer(c: nat)

  function Initial(clock: int): State { State(clock, map[], 0, [], {}, [], []) }

  predicate At(s: State, c: nat) { c < |s.threads| }

  predicate Enabled(s: State, step: Step) {
    match step
    case Tick(now) => now >= s.clock
    case Arrive(key) => Deduplicated(key.protocol, key.methodID)
    case ReadClock(c) => At(s, c) && s.threads[c].pc.Start?
    case Lock(c) => At(s, c) && s.threads[c].pc.Locking?
    case Wake(c) => At(s, c) && s.threads[c].pc.Waiting? && s.threads[c].pc.id in s.closed
    case Return(c, _) => At(s, c) && (s.threads[c].pc.Running? || s.threads[c].pc.RunningUnrecorded?)
    case Defer(c) => At(s, c) && s.threads[c].pc.Settling?
  }

  function SetCall(s: State, c: nat, call: Call): State
    requires At(s, c)
  {
    s.(threads := s.threads[c := call])
  }

  function DoLock(cfg: Config, s: State, c: nat): State
    requires At(s, c) && s.threads[c].pc.Locking?
  {
    var me := s.threads[c];
    var key := me.key;
    var looked := Lookup(cfg, s.table, s.calls, |s.owners|, key, me.pc.now);
    var s1 := s.(table := looked.table, calls := looked.calls);
    match looked.verdict
    case Wait(id) => SetCall(s1, c, me.(pc := Waiting(id), waits := me.waits + [id]))
    case Reply(r) => SetCall(s1, c, me.(pc := Finished(Answer(r))))
    case Overflow => SetCall(s1, c, me.(pc := RunningUnrecorded, ran := true)).(
      log := s.log + [Began(key, None, s.clock)])
    case Execute(id) => SetCall(s1, c, me.(pc := Running(id), ran := true)).(
      owners := s.owners + [Owner(c, key)], log := s.log + [Began(key, Some(id), s.clock)])
  }

  function DoDefer(cfg: Config, s: State, c: nat): State
    requires At(s, c) && s.threads[c].pc.Settling?
  {
    var me := s.threads[c];
    var id, out, key := me.pc.id, me.pc.out, me.key;
    var done := SetCall(s, c, me.(pc := Finished(out)));
    if !StillCurrent(s.table, key, id) then done
    else
      var e := match ResponseOf(out)
        case None => Released(key, id)
        case Some(r) => Cached(key, id, r, s.clock + cfg.ttl);
      done.(table := Settle(cfg, s.table, key, id, ResponseOf(out), s.clock),
            closed := s.closed + {id}, log := s.log + [e])
  }

  function Apply(cfg: Config, s: State, step: Step): State
    requires Enabled(s, step)
  {
    match step
    case Tick(now) => s.(clock := now)
    case Arrive(key) => s.(threads := s.threads + [Call(key, Start, [], false)])
    case ReadClock(c) => SetCall(s, c, s.threads[c].(pc := Locking(s.clock)))
    case Lock(c) => DoLock(cfg, s, c)
    case Wake(c) => SetCall(s, c, s.threads[c].(pc := Start))
    case Return(c, out) =>
      var me := s.threads[c];
      SetCall(s, c, me.(pc := if me.pc.Running? then Settling(me.pc.id, out) else Finished(out)))
    case Defer(c) => DoDefer(cfg, s, c)
  }

  /** The state after the steps of `run` from an empty table, if each was enabled when taken. */
  function Run(cfg: Config, clock: int, run: seq<Step>): Option<State> {
    if run == [] then Some(Initial(clock))
    else
      var last := run[|run| - 1];
      match Run(cfg, clock, run[..|run| - 1])
      case None => None
      case Some(p) => if Enabled(p, last) then Some(Apply(cfg, p, last)) else None
  }

  // ---- which requests are deduplicated ------------------------------------

  const MATCHMAKE_EXTENSION: u16 := 0x6D
  const MATCH_MAKING: u16 := 0x15
  const MATCH_MAKING_EXT: u16 := 0x32
  const METHOD_CREATE_SESSION: u32 := 0x26

  predicate Deduplicated(protocol: u16, methodID: u32) {
    || (protocol == MATCHMAKE_EXTENSION && methodID in
          {0x01, 0x02, METHOD_CREATE_SESSION, 0x27, 0x28, 0x44, 0x2C, 0x0B, 0x08, 0x09, 0x37, 0x3D, 0x3E, 0x3F})
    || (protocol == MATCH_MAKING && methodID in {0x02, 0x1B, 0x2A, 0x28, 0x2C, 0x24, 0x2B})
    || (protocol == MATCH_MAKING_EXT && methodID == 0x01)
  }
}
