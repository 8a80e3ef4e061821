/** What every interleaving of the deduplicator keeps. */
module DedupSafety {
  import opened Bytes
  import opened Rmc
  import opened Dedup

  // ---- ownership ----------------------------------------------------------

  predicate SlotOk(s: State, k: Key)
    requires k in s.table
  {
    var slot := s.table[k];
    && slot.id < |s.owners| && s.owners[slot.id].key == k
    && (slot.InFlight? <==> slot.id !in s.closed)
  }

  predicate Executes(call: Call, id: nat) {
    (call.pc.Running? || call.pc.Settling?) && call.pc.id == id
  }

  /** An open entry is in flight in the table and its creator is executing; a closed one has a finished creator. */
  predicate OwnerOk(s: State, id: nat)
    requires id < |s.owners|
  {
    var o := s.owners[id];
    && At(s, o.call) && s.threads[o.call].key == o.key
    && (if id in s.closed then s.threads[o.call].pc.Finished?
        else o.key in s.table && s.table[o.key] == InFlight(id) && Executes(s.threads[o.call], id))
  }

  predicate WaitOk(s: State, c: nat, w: nat)
    requires At(s, c)
  {
    && w < |s.owners| && s.owners[w].key == s.threads[c].key && s.owners[w].call != c
    && (w in s.closed || s.threads[c].pc == Waiting(w))
  }

  predicate NoRepeats(ws: seq<nat>) { forall i, j :: 0 <= i < j < |ws| ==> ws[i] != ws[j] }

  predicate CallOk(s: State, c: nat)
    requires At(s, c)
  {
    var me := s.threads[c];
    && (me.pc.Locking? ==> me.pc.now <= s.clock)
    && (me.pc.Waiting? ==> me.pc.id in me.waits)
    && ((me.pc.Running? || me.pc.Settling?) ==>
          me.pc.id < |s.owners| && s.owners[me.pc.id] == Owner(c, me.key) && me.pc.id !in s.closed)
    && NoRepeats(me.waits)
    && (forall w :: w in me.waits ==> WaitOk(s, c, w))
  }

  predicate OneEntryEach(s: State) {
    forall i, j :: 0 <= i < j < |s.owners| ==> s.owners[i].call != s.owners[j].call
  }

  predicate Owned(cfg: Config, s: State) {
    && |s.table| <= cfg.maxEntries
    && (forall k :: k in s.table ==> SlotOk(s, k))
    && (forall id :: 0 <= id < |s.owners| ==> OwnerOk(s, id))
    && (forall id :: id in s.closed ==> id < |s.owners|)
    && (forall c :: 0 <= c < |s.threads| ==> CallOk(s, c))
    && OneEntryEach(s)
  }

  // ---- what a lookup does to the table ------------------------------------

  lemma {:induction false} SubsetCard<T>(a: set<T>, b: set<T>)
    requires a <= b
    ensures |a| <= |b|
  {
    assert b == a + (b - a);
  }

  lemma PruneShrinks(t: Table, now: int)
    ensures |Prune(t, now)| <= |t|
  {
    SubsetCard(Prune(t, now).Keys, t.Keys);
  }

  lemma SweptFacts(cfg: Config, t: Table, calls: u64, now: int)
    ensures var t1 := Swept(cfg, t, calls, now);
            && |t1| <= |t|
            && (forall k :: k in t1 ==> k in t && t1[k] == t[k])
            && (forall k :: k in t && k !in t1 ==> Expired(t[k], now))
  {
    PruneShrinks(t, now);
  }

  lemma WithoutKey(t: Table, key: Key)
    ensures |t - {key}| == if key in t then |t| - 1 else |t|
  {
    if key in t {
      assert t.Keys == (t - {key}).Keys + {key};
    } else {
      assert t - {key} == t;
    }
  }

  lemma Replaced(t: Table, key: Key, slot: Slot)
    ensures |(t - {key})[key := slot]| == |t - {key}| + 1
  {
    assert (t - {key})[key := slot].Keys == (t - {key}).Keys + {key};
  }

  lemma ConsultSize(cfg: Config, t: Table, calls: u64, newId: nat, key: Key, now: int)
    requires |t| <= cfg.maxEntries
    ensures |Consult(cfg, t, calls, newId, key, now).table| <= cfg.maxEntries
  {
    WithoutKey(t, key);
    Replaced(t, key, InFlight(newId));
  }

  lemma Elsewhere<K, V>(t: map<K, V>, key: K, v: V, k: K)
    requires k != key
    ensures (k in t - {key} <==> k in t) && (k in t ==> (t - {key})[k] == t[k])
    ensures (k in (t - {key})[key := v] <==> k in t) && (k in t ==> (t - {key})[key := v][k] == t[k])
  {
  }

  lemma ConsultCases(cfg: Config, t: Table, calls: u64, newId: nat, key: Key, now: int)
    ensures Consult(cfg, t, calls, newId, key, now).table in {t, t - {key}, (t - {key})[key := InFlight(newId)]}
  {
  }

  lemma ConsultElsewhere(cfg: Config, t: Table, calls: u64, newId: nat, key: Key, now: int, k: Key)
    requires k != key
    ensures var l := Consult(cfg, t, calls, newId, key, now);
            (k in l.table <==> k in t) && (k in t ==> l.table[k] == t[k])
  {
    hide Consult;
    ConsultCases(cfg, t, calls, newId, key, now);
    Elsewhere(t, key, InFlight(newId), k);
  }

  lemma ConsultTable(cfg: Config, t: Table, calls: u64, newId: nat, key: Key, now: int)
    ensures var l := Consult(cfg, t, calls, newId, key, now);
            && (|t| <= cfg.maxEntries ==> |l.table| <= cfg.maxEntries)
            && (forall k :: k != key ==> (k in l.table <==> k in t))
            && (forall k :: k != key && k in t ==> l.table[k] == t[k])
  {
    hide Consult;
    var l := Consult(cfg, t, calls, newId, key, now);
    if |t| <= cfg.maxEntries { ConsultSize(cfg, t, calls, newId, key, now); }
    forall k | k != key ensures (k in l.table <==> k in t) && (k in t ==> l.table[k] == t[k]) {
      ConsultElsewhere(cfg, t, calls, newId, key, now, k);
    }
  }

  lemma ConsultVerdict(cfg: Config, t: Table, calls: u64, newId: nat, key: Key, now: int)
    ensures var l := Consult(cfg, t, calls, newId, key, now);
            match l.verdict
            case Wait(id) => key in t && t[key] == InFlight(id) && l.table == t
            case Reply(r) => key in t && t[key].Done? && t[key].response == r && now < t[key].expires && l.table == t
            case Overflow => key !in l.table && (key in t ==> Expired(t[key], now))
            case Execute(id) => key in l.table && l.table[key] == InFlight(newId) && id == newId
                                && (key in t ==> Expired(t[key], now))
  {
  }

  /** A lookup never exceeds the bound, keeps every other live entry as it is, and drops only what
      has expired at its clock reading. */
  lemma LookupTable(cfg: Config, t: Table, calls: u64, newId: nat, key: Key, now: int)
    ensures var t' := Lookup(cfg, t, calls, newId, key, now).table;
            && (|t| <= cfg.maxEntries ==> |t'| <= cfg.maxEntries)
            && (forall k :: k != key && k in t' ==> k in t && t'[k] == t[k])
            && (forall k :: k in t && k !in t' ==> Expired(t[k], now))
  {
    hide Swept;
    hide Bump;
    hide Consult;
    SweptFacts(cfg, t, calls, now);
    ConsultTable(cfg, Swept(cfg, t, calls, now), Bump(calls), newId, key, now);
    ConsultVerdict(cfg, Swept(cfg, t, calls, now), Bump(calls), newId, key, now);
  }

  /** Settings at or below zero give 20 seconds and 4096 entries. */
  lemma ConfigExactly(ttl: int, maxEntries: int)
    ensures NewConfig(ttl, maxEntries).ttl == if ttl > 0 then ttl else 20_000_000_000
    ensures NewConfig(ttl, maxEntries).maxEntries == if maxEntries > 0 then maxEntries else 4096
  {
  }

  lemma SweptExactly(cfg: Config, t: Table, calls: u64, now: int)
    ensures var t' := Swept(cfg, t, calls, now);
            && (forall x :: x in t' <==>
                  && x in t
                  && (Bump(calls) % 256 == 0 || |t| >= cfg.maxEntries ==> t[x].InFlight? || now < t[x].expires))
            && (forall x :: x in t' ==> t'[x] == t[x])
  {
    hide Bump;
  }

  /** The entries of other keys are the same. */
  predicate SameOthers(t: Table, t': Table, key: Key) {
    && (forall x :: x in t && x != key ==> x in t' && t'[x] == t[x])
    && (forall x :: x in t' && x != key ==> x in t)
  }

  lemma DroppedAndSet(t: Table, key: Key, slot: Slot)
    ensures SameOthers(t, t, key) && SameOthers(t, t - {key}, key) && SameOthers(t, (t - {key})[key := slot], key)
  {
  }

  lemma ConsultOthers(cfg: Config, t: Table, calls: u64, newId: nat, key: Key, now: int)
    ensures var l := Consult(cfg, t, calls, newId, key, now); l.calls == calls && SameOthers(t, l.table, key)
  {
    DroppedAndSet(t, key, InFlight(newId));
    hide SameOthers;
  }

  /** What a lookup does to the entries of other keys: every 256th lookup, and any on a full table, drops exactly those
      that have run out, every other leaves them alone. */
  lemma SweepsExactly(cfg: Config, t: Table, calls: u64, newId: nat, key: Key, now: int)
    ensures var l := Lookup(cfg, t, calls, newId, key, now);
            && l.calls == (calls + 1) % 0x1_0000_0000_0000_0000
            && (forall x :: x != key ==>
                  (x in l.table <==>
                     && x in t
                     && (l.calls % 256 == 0 || |t| >= cfg.maxEntries ==> t[x].InFlight? || now < t[x].expires)))
            && (forall x :: x != key && x in l.table ==> l.table[x] == t[x])
  {
    hide Swept;
    hide Consult;
    SweptExactly(cfg, t, calls, now);
    ConsultOthers(cfg, Swept(cfg, t, calls, now), Bump(calls), newId, key, now);
  }

  /** A lookup runs the handler only if its key has no live entry at its clock reading. */
  lemma LookupVerdict(cfg: Config, t: Table, calls: u64, newId: nat, key: Key, now: int)
    ensures var l := Lookup(cfg, t, calls, newId, key, now);
            match l.verdict
            case Wait(id) => key in t && t[key] == InFlight(id) && key in l.table && l.table[key] == t[key]
            case Reply(r) => key in t && t[key].Done? && t[key].response == r && now < t[key].expires
                             && key in l.table && l.table[key] == t[key]
            case Overflow => key !in l.table && (key in t ==> Expired(t[key], now))
            case Execute(id) => key in l.table && l.table[key] == InFlight(newId) && id == newId
                                && (key in t ==> Expired(t[key], now))
  {
    hide Swept;
    hide Bump;
    hide Consult;
    SweptFacts(cfg, t, calls, now);
    ConsultVerdict(cfg, Swept(cfg, t, calls, now), Bump(calls), newId, key, now);
  }

  lemma SettleFacts(cfg: Config, t: Table, key: Key, id: nat, response: Option<Message>, now: int)
    requires StillCurrent(t, key, id)
    ensures var t' := Settle(cfg, t, key, id, response, now);
            && |t'| <= |t|
            && (forall k :: k != key ==> (k in t' <==> k in t) && (k in t' ==> t'[k] == t[k]))
            && (key in t' <==> response.Some?)
            && (key in t' ==> t'[key] == Done(id, response.value, now + cfg.ttl))
  {
    match response
    case None => WithoutKey(t, key);
    case Some(r) => assert t[key := Done(id, r, now + cfg.ttl)].Keys == t.Keys;
  }

  // ---- ownership is kept by every step ------------------------------------

  lemma OwnedInitially(cfg: Config, clock: int)
    requires Proper(cfg)
    ensures Owned(cfg, Initial(clock))
  {
  }

  /** A call no step has touched stays as it should be. */
  lemma CallKept(s: State, s': State, d: nat)
    requires At(s, d) && At(s', d) && CallOk(s, d) && s'.threads[d] == s.threads[d]
    requires s.owners <= s'.owners && s.closed <= s'.closed && s.clock <= s'.clock
    requires s.threads[d].pc.Running? || s.threads[d].pc.Settling? ==> s.threads[d].pc.id !in s'.closed
    ensures CallOk(s', d)
  {
    forall w | w in s'.threads[d].waits ensures WaitOk(s', d, w) { assert WaitOk(s, d, w); }
  }

  /** The finished waits of a call stay as they should be whatever the call does next. */
  lemma WaitsKept(s: State, s': State, c: nat)
    requires At(s, c) && At(s', c) && CallOk(s, c)
    requires s'.threads[c].waits == s.threads[c].waits && s'.threads[c].key == s.threads[c].key
    requires s.owners <= s'.owners && s.closed <= s'.closed
    requires s.threads[c].pc.Waiting? ==> s.threads[c].pc.id in s.closed
    ensures NoRepeats(s'.threads[c].waits)
    ensures forall w :: w in s'.threads[c].waits ==> WaitOk(s', c, w)
  {
    forall w | w in s'.threads[c].waits ensures WaitOk(s', c, w) { assert WaitOk(s, c, w); }
  }

  /** Changing only the program counter of a call between two places that own nothing. */
  lemma OwnedMove(cfg: Config, s: State, c: nat, call: Call)
    requires Owned(cfg, s) && At(s, c)
    requires call.key == s.threads[c].key && call.waits == s.threads[c].waits
    requires !s.threads[c].pc.Running? && !s.threads[c].pc.Settling? && !s.threads[c].pc.Finished?
    requires s.threads[c].pc.Waiting? ==> s.threads[c].pc.id in s.closed
    requires !call.pc.Running? && !call.pc.Settling? && !call.pc.Waiting?
    requires call.pc.Locking? ==> call.pc.now <= s.clock
    ensures Owned(cfg, SetCall(s, c, call))
  {
    var s' := SetCall(s, c, call);
    forall id | 0 <= id < |s'.owners| ensures OwnerOk(s', id) { assert OwnerOk(s, id); }
    forall k | k in s'.table ensures SlotOk(s', k) { assert SlotOk(s, k); }
    forall d | 0 <= d < |s'.threads| ensures CallOk(s', d) {
      if d == c { WaitsKept(s, s', c); } else { CallKept(s, s', d); }
    }
  }

  /** Shrinking the table by expired entries and touching the counter. */
  lemma OwnedSweep(cfg: Config, s: State, t: Table, calls: u64)
    requires Owned(cfg, s)
    requires |t| <= cfg.maxEntries
    requires forall k :: k in t ==> k in s.table && t[k] == s.table[k]
    requires forall k :: k in s.table && k !in t ==> s.table[k].Done?
    ensures Owned(cfg, s.(table := t, calls := calls))
  {
    var s' := s.(table := t, calls := calls);
    forall id | 0 <= id < |s'.owners| ensures OwnerOk(s', id) { assert OwnerOk(s, id); }
    forall k | k in s'.table ensures SlotOk(s', k) { assert SlotOk(s, k); }
    forall d | 0 <= d < |s'.threads| ensures CallOk(s', d) { CallKept(s, s', d); }
  }

  lemma OwnedWait(cfg: Config, s: State, c: nat, id: nat)
    requires Owned(cfg, s) && At(s, c) && s.threads[c].pc.Locking?
    requires s.threads[c].key in s.table && s.table[s.threads[c].key] == InFlight(id)
    ensures Owned(cfg, SetCall(s, c, s.threads[c].(pc := Waiting(id), waits := s.threads[c].waits + [id])))
  {
    var me := s.threads[c];
    var s' := SetCall(s, c, me.(pc := Waiting(id), waits := me.waits + [id]));
    assert SlotOk(s, me.key) && OwnerOk(s, id) && CallOk(s, c);
    forall i | 0 <= i < |s'.owners| ensures OwnerOk(s', i) { assert OwnerOk(s, i); }
    forall k | k in s'.table ensures SlotOk(s', k) { assert SlotOk(s, k); }
    assert id !in me.waits by { assert forall w :: w in me.waits ==> WaitOk(s, c, w); }
    forall d | 0 <= d < |s'.threads| ensures CallOk(s', d) {
      if d != c { CallKept(s, s', d); }
      forall w | d == c && w in s'.threads[d].waits ensures WaitOk(s', d, w) {
        if w != id { assert WaitOk(s, d, w); }
      }
    }
  }

  lemma OwnedExecute(cfg: Config, s: State, c: nat, t: Table)
    requires Owned(cfg, s) && At(s, c) && s.threads[c].pc.Locking?
    requires |t| <= cfg.maxEntries
    requires var key := s.threads[c].key;
             && key in t && t[key] == InFlight(|s.owners|)
             && (forall k :: k != key && k in t ==> k in s.table && t[k] == s.table[k])
             && (forall k :: k in s.table && k !in t ==> s.table[k].Done?)
             && (key in s.table ==> s.table[key].Done?)
    ensures var me := s.threads[c];
            Owned(cfg, SetCall(s, c, me.(pc := Running(|s.owners|), ran := true)).(
              table := t, owners := s.owners + [Owner(c, me.key)]))
  {
    var me, n := s.threads[c], |s.owners|;
    var s' := SetCall(s, c, me.(pc := Running(n), ran := true)).(table := t, owners := s.owners + [Owner(c, me.key)]);
    assert n !in s.closed;
    forall i | 0 <= i < |s'.owners| ensures OwnerOk(s', i) {
      if i < n { assert OwnerOk(s, i); }
    }
    forall k | k in s'.table ensures SlotOk(s', k) { if k != me.key { assert SlotOk(s, k); } }
    forall d | 0 <= d < |s'.threads| ensures CallOk(s', d) {
      if d == c { WaitsKept(s, s', c); } else { CallKept(s, s', d); }
    }
    assert OneEntryEach(s') by {
      forall i, j | 0 <= i < j < |s'.owners| ensures s'.owners[i].call != s'.owners[j].call {
        assert OwnerOk(s, i);
      }
    }
  }

  lemma OwnedLock(cfg: Config, s: State, c: nat)
    requires Proper(cfg) && Owned(cfg, s) && Enabled(s, Lock(c))
    ensures Owned(cfg, Apply(cfg, s, Lock(c)))
  {
    hide Lookup;
    var me := s.threads[c];
    LookupTable(cfg, s.table, s.calls, |s.owners|, me.key, me.pc.now);
    LookupVerdict(cfg, s.table, s.calls, |s.owners|, me.key, me.pc.now);
    var l := Lookup(cfg, s.table, s.calls, |s.owners|, me.key, me.pc.now);
    var s' := Apply(cfg, s, Lock(c));
    match l.verdict
    case Wait(id) =>
      OwnedSweep(cfg, s, l.table, l.calls);
      OwnedWait(cfg, s.(table := l.table, calls := l.calls), c, id);
    case Reply(r) =>
      OwnedSweep(cfg, s, l.table, l.calls);
      OwnedMove(cfg, s.(table := l.table, calls := l.calls), c, me.(pc := Finished(Answer(r))));
    case Overflow =>
      OwnedSweep(cfg, s, l.table, l.calls);
      OwnedMove(cfg, s.(table := l.table, calls := l.calls), c, me.(pc := RunningUnrecorded, ran := true));
      OwnedSame(cfg, SetCall(s.(table := l.table, calls := l.calls), c, me.(pc := RunningUnrecorded, ran := true)), s');
    case Execute(id) =>
      OwnedExecute(cfg, s, c, l.table);
      var r := SetCall(s, c, me.(pc := Running(|s.owners|), ran := true)).(
        table := l.table, owners := s.owners + [Owner(c, me.key)]);
      OwnedSame(cfg, r, s');
  }

  /** Ownership does not look at the log or the call counter. */
  lemma OwnedSame(cfg: Config, s: State, s': State)
    requires Owned(cfg, s)
    requires s' == s.(log := s'.log, calls := s'.calls)
    ensures Owned(cfg, s')
  {
    forall id | 0 <= id < |s'.owners| ensures OwnerOk(s', id) { assert OwnerOk(s, id); }
    forall k | k in s'.table ensures SlotOk(s', k) { assert SlotOk(s, k); }
    forall d | 0 <= d < |s'.threads| ensures CallOk(s', d) { CallKept(s, s', d); }
  }

  lemma OwnedReturn(cfg: Config, s: State, c: nat, out: Outcome)
    requires Owned(cfg, s) && Enabled(s, Return(c, out))
    ensures Owned(cfg, Apply(cfg, s, Return(c, out)))
  {
    var s' := Apply(cfg, s, Return(c, out));
    forall id | 0 <= id < |s'.owners| ensures OwnerOk(s', id) { assert OwnerOk(s, id) && CallOk(s, c); }
    forall k | k in s'.table ensures SlotOk(s', k) { assert SlotOk(s, k); }
    forall d | 0 <= d < |s'.threads| ensures CallOk(s', d) {
      if d == c { WaitsKept(s, s', c); } else { CallKept(s, s', d); }
    }
  }

  /** The guard of the deferred section always holds: nobody but its executor touches an in-flight entry. */
  lemma AlwaysStillCurrent(cfg: Config, s: State, c: nat)
    requires Owned(cfg, s) && At(s, c) && s.threads[c].pc.Settling?
    ensures StillCurrent(s.table, s.threads[c].key, s.threads[c].pc.id)
    ensures s.table[s.threads[c].key] == InFlight(s.threads[c].pc.id)
    ensures |s.table| <= cfg.maxEntries
  {
    assert CallOk(s, c) && OwnerOk(s, s.threads[c].pc.id);
  }

  lemma OwnedDefer(cfg: Config, s: State, c: nat)
    requires Owned(cfg, s) && Enabled(s, Defer(c))
    ensures Owned(cfg, Apply(cfg, s, Defer(c)))
  {
    var me := s.threads[c];
    var id, key := me.pc.id, me.key;
    hide Owned;
    hide Settle;
    AlwaysStillCurrent(cfg, s, c);
    var t := Settle(cfg, s.table, key, id, ResponseOf(me.pc.out), s.clock);
    SettleFacts(cfg, s.table, key, id, ResponseOf(me.pc.out), s.clock);
    OwnedClose(cfg, s, c, t);
    OwnedSame(cfg, SetCall(s, c, me.(pc := Finished(me.pc.out))).(table := t, closed := s.closed + {id}),
              Apply(cfg, s, Defer(c)));
  }

  lemma OwnerClosed(s: State, s': State, id: nat, i: nat)
    requires i < |s.owners| && id < |s.owners| && OneEntryEach(s) && OwnerOk(s, i) && OwnerOk(s, id) && id !in s.closed
    requires s'.owners == s.owners && s'.closed == s.closed + {id} && |s'.threads| == |s.threads|
    requires var c := s.owners[id].call;
             && s'.threads[c].key == s.threads[c].key && s'.threads[c].pc.Finished?
             && (forall d :: 0 <= d < |s.threads| && d != c ==> s'.threads[d] == s.threads[d])
    requires forall k :: k in s.table && k != s.owners[id].key ==> k in s'.table && s'.table[k] == s.table[k]
    ensures OwnerOk(s', i)
  {
    if i < id { assert s.owners[i].call != s.owners[id].call; }
    if id < i { assert s.owners[id].call != s.owners[i].call; }
  }

  lemma OwnedClose(cfg: Config, s: State, c: nat, t: Table)
    requires Owned(cfg, s) && At(s, c) && s.threads[c].pc.Settling?
    requires |t| <= cfg.maxEntries
    requires var key := s.threads[c].key;
             && (forall k :: k != key ==> (k in t <==> k in s.table) && (k in t ==> t[k] == s.table[k]))
             && (key in t ==> t[key].Done? && t[key].id == s.threads[c].pc.id)
    ensures var me := s.threads[c];
            Owned(cfg, SetCall(s, c, me.(pc := Finished(me.pc.out))).(table := t, closed := s.closed + {me.pc.id}))
  {
    var me := s.threads[c];
    var id := me.pc.id;
    var s' := SetCall(s, c, me.(pc := Finished(me.pc.out))).(table := t, closed := s.closed + {id});
    assert CallOk(s, c) && OwnerOk(s, id);
    forall i | 0 <= i < |s'.owners| ensures OwnerOk(s', i) { OwnerClosed(s, s', id, i); }
    assert OneEntryEach(s');
    forall k | k in s'.table ensures SlotOk(s', k) {
      if k != me.key { assert SlotOk(s, k); }
    }
    forall d | 0 <= d < |s'.threads| ensures CallOk(s', d) {
      if d == c { WaitsKept(s, s', c); } else { CallKept(s, s', d); }
    }
  }

  lemma OwnedArrive(cfg: Config, s: State, key: Key)
    requires Owned(cfg, s) && Enabled(s, Arrive(key))
    ensures Owned(cfg, Apply(cfg, s, Arrive(key)))
  {
    var s' := Apply(cfg, s, Arrive(key));
    forall id | 0 <= id < |s'.owners| ensures OwnerOk(s', id) { assert OwnerOk(s, id); }
    forall k | k in s'.table ensures SlotOk(s', k) { assert SlotOk(s, k); }
    forall d | 0 <= d < |s'.threads| ensures CallOk(s', d) {
      if d < |s.threads| { CallKept(s, s', d); }
    }
  }

  lemma OwnedTick(cfg: Config, s: State, now: int)
    requires Owned(cfg, s) && Enabled(s, Tick(now))
    ensures Owned(cfg, Apply(cfg, s, Tick(now)))
  {
    var s' := Apply(cfg, s, Tick(now));
    forall id | 0 <= id < |s'.owners| ensures OwnerOk(s', id) { assert OwnerOk(s, id); }
    forall k | k in s'.table ensures SlotOk(s', k) { assert SlotOk(s, k); }
    forall d | 0 <= d < |s'.threads| ensures CallOk(s', d) { CallKept(s, s', d); }
  }

  lemma OwnedStep(cfg: Config, s: State, step: Step)
    requires Proper(cfg) && Owned(cfg, s) && Enabled(s, step)
    ensures Owned(cfg, Apply(cfg, s, step))
  {
    match step
    case Tick(now) => OwnedTick(cfg, s, now);
    case Arrive(key) => OwnedArrive(cfg, s, key);
    case ReadClock(c) => OwnedMove(cfg, s, c, s.threads[c].(pc := Locking(s.clock)));
    case Lock(c) => OwnedLock(cfg, s, c);
    case Wake(c) => OwnedMove(cfg, s, c, s.threads[c].(pc := Start));
    case Return(c, out) => OwnedReturn(cfg, s, c, out);
    case Defer(c) => OwnedDefer(cfg, s, c);
  }
}
