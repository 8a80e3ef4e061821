/** What the deduplicator promises over whole runs. */
module DedupHistory {
  import opened Bytes
  import opened Rmc
  import opened Dedup
  import opened DedupSafety

  // ---- the invariant on the log -------------------------------------------

  predicate Closes(e: Event, id: nat) { !e.Began? && e.id == id }

  /** Entry `id` is closed by an event strictly between positions `i` and `j`. */
  predicate ClosedBetween(log: seq<Event>, i: int, j: int, id: nat) {
    exists m :: i < m < j && 0 <= m < |log| && Closes(log[m], id)
  }

  predicate CachedAs(log: seq<Event>, k: Key, r: Message) {
    exists m :: 0 <= m < |log| && log[m].Cached? && log[m].key == k && log[m].response == r
  }

  /** A response stored and not expired is the entry in the table. */
  predicate StoredLive(s: State, e: Event) {
    e.Cached? && s.clock < e.expires ==> e.key in s.table && s.table[e.key] == Done(e.id, e.response, e.expires)
  }

  predicate BeganKnown(s: State, i: nat)
    requires i < |s.log|
  {
    var e := s.log[i];
    e.Began? && e.entry.Some? ==>
      && e.entry.value < |s.owners| && s.owners[e.entry.value].key == e.key
      && (e.entry.value in s.closed ==> ClosedBetween(s.log, i, |s.log|, e.entry.value))
  }

  /** No handler starts for a key before the response stored earlier under it has expired. */
  predicate AfterExpiry(a: Event, b: Event) {
    a.Cached? && b.Began? && a.key == b.key ==> b.at >= a.expires
  }

  /** No handler starts for a key while a recorded execution under it is still open. */
  predicate AfterClose(log: seq<Event>, i: int, j: int)
    requires 0 <= i < |log| && 0 <= j < |log|
  {
    log[i].Began? && log[j].Began? && log[i].key == log[j].key && log[i].entry.Some? ==>
      ClosedBetween(log, i, j, log[i].entry.value)
  }

  predicate Safe(log: seq<Event>) {
    && (forall i, j :: 0 <= i < j < |log| ==> AfterExpiry(log[i], log[j]))
    && (forall i, j :: 0 <= i < j < |log| ==> AfterClose(log, i, j))
  }

  /** A call that finished without running the handler has a response stored under its own key. */
  predicate Accounted(s: State, c: nat)
    requires At(s, c)
  {
    var me := s.threads[c];
    && (me.pc.Running? || me.pc.Settling? || me.pc.RunningUnrecorded? ==> me.ran)
    && (me.pc.Finished? && !me.ran ==> me.pc.out.Answer? && CachedAs(s.log, me.key, me.pc.out.response))
  }

  predicate Logged(s: State) {
    && (forall i :: 0 <= i < |s.log| ==> StoredLive(s, s.log[i]))
    && (forall i :: 0 <= i < |s.log| ==> BeganKnown(s, i))
    && Safe(s.log)
    && (forall k :: k in s.table && s.table[k].Done? ==> CachedAs(s.log, k, s.table[k].response))
    && (forall c :: 0 <= c < |s.threads| ==> Accounted(s, c))
  }

  // ---- it is kept by every step -------------------------------------------

  lemma ClosedLonger(log: seq<Event>, e: Event, i: int, j: int, id: nat)
    requires ClosedBetween(log, i, j, id)
    ensures ClosedBetween(log + [e], i, j, id) && ClosedBetween(log + [e], i, j + 1, id)
  {
    var m :| i < m < j && 0 <= m < |log| && Closes(log[m], id);
    assert (log + [e])[m] == log[m];
  }

  lemma CachedLonger(log: seq<Event>, e: Event, k: Key, r: Message)
    requires CachedAs(log, k, r)
    ensures CachedAs(log + [e], k, r)
  {
    var m :| 0 <= m < |log| && log[m].Cached? && log[m].key == k && log[m].response == r;
    assert (log + [e])[m] == log[m];
  }

  /** Appending a start keeps the log safe when no stored response is live and no execution open for its key. */
  lemma SafeBegan(log: seq<Event>, e: Event)
    requires Safe(log) && e.Began?
    requires forall i :: 0 <= i < |log| ==> AfterExpiry(log[i], e)
    requires forall i :: 0 <= i < |log| && log[i].Began? && log[i].key == e.key && log[i].entry.Some? ==>
               ClosedBetween(log, i, |log|, log[i].entry.value)
    ensures Safe(log + [e])
  {
    var log' := log + [e];
    forall i, j | 0 <= i < j < |log'| ensures AfterExpiry(log'[i], log'[j]) {
      if j < |log| { assert AfterExpiry(log[i], log[j]); }
    }
    forall i, j | 0 <= i < j < |log'| ensures AfterClose(log', i, j) {
      if log'[i].Began? && log'[j].Began? && log'[i].key == log'[j].key && log'[i].entry.Some? {
        var id := log[i].entry.value;
        if j < |log| {
          assert AfterClose(log, i, j);
          ClosedLonger(log, e, i, j, id);
        } else {
          ClosedLonger(log, e, i, |log|, id);
        }
      }
    }
  }

  lemma SafeClosed(log: seq<Event>, e: Event)
    requires Safe(log) && !e.Began?
    ensures Safe(log + [e])
  {
    var log' := log + [e];
    forall i, j | 0 <= i < j < |log'| ensures AfterExpiry(log'[i], log'[j]) {
      if j < |log| { assert AfterExpiry(log[i], log[j]); }
    }
    forall i, j | 0 <= i < j < |log'| ensures AfterClose(log', i, j) {
      if j < |log| && log[i].Began? && log[j].Began? && log[i].key == log[j].key && log[i].entry.Some? {
        assert AfterClose(log, i, j);
        ClosedLonger(log, e, i, j, log[i].entry.value);
      }
    }
  }

  /** A key with an unexpired stored response or an open execution has a live entry. */
  lemma DeadEntry(cfg: Config, s: State, key: Key, now: int)
    requires Owned(cfg, s) && Logged(s) && now <= s.clock
    requires key in s.table ==> Expired(s.table[key], now)
    ensures forall i :: 0 <= i < |s.log| && s.log[i].Cached? && s.log[i].key == key ==> s.clock >= s.log[i].expires
    ensures forall i :: 0 <= i < |s.log| && s.log[i].Began? && s.log[i].key == key && s.log[i].entry.Some? ==>
              ClosedBetween(s.log, i, |s.log|, s.log[i].entry.value)
  {
    forall i | 0 <= i < |s.log| && s.log[i].Cached? && s.log[i].key == key
      ensures s.clock >= s.log[i].expires
    {
      assert StoredLive(s, s.log[i]);
    }
    forall i | 0 <= i < |s.log| && s.log[i].Began? && s.log[i].key == key && s.log[i].entry.Some?
      ensures ClosedBetween(s.log, i, |s.log|, s.log[i].entry.value)
    {
      assert BeganKnown(s, i);
      assert OwnerOk(s, s.log[i].entry.value);
    }
  }

  /** The parts of `Logged` about log, table and owners, after a lookup that starts a handler. */
  lemma LoggedStart(cfg: Config, s: State, c: nat)
    requires Proper(cfg) && Owned(cfg, s) && Logged(s) && Enabled(s, Lock(c))
    requires var me := s.threads[c];
             var v := Lookup(cfg, s.table, s.calls, |s.owners|, me.key, me.pc.now).verdict;
             v.Overflow? || v.Execute?
    ensures Logged(Apply(cfg, s, Lock(c)))
  {
    hide Lookup;
    hide Owned;
    var me := s.threads[c];
    var s' := Apply(cfg, s, Lock(c));
    LookupTable(cfg, s.table, s.calls, |s.owners|, me.key, me.pc.now);
    LookupVerdict(cfg, s.table, s.calls, |s.owners|, me.key, me.pc.now);
    NowPast(cfg, s, c);
    DeadEntry(cfg, s, me.key, me.pc.now);
    var e := s'.log[|s.log|];
    assert s'.log == s.log + [e];
    SafeBegan(s.log, e);
    forall i | 0 <= i < |s'.log| ensures StoredLive(s', s'.log[i]) {
      if i < |s.log| { assert StoredLive(s, s.log[i]); }
    }
    forall i | 0 <= i < |s'.log| ensures BeganKnown(s', i) {
      if i < |s.log| { BeganLonger(s, s', i, e); } else { NewUnclosed(cfg, s); }
    }
    forall k | k in s'.table && s'.table[k].Done? ensures CachedAs(s'.log, k, s'.table[k].response) {
      CachedLonger(s.log, e, k, s.table[k].response);
    }
    forall d | 0 <= d < |s'.threads| ensures Accounted(s', d) {
      assert Accounted(s, d);
      if d != c { AccountedLonger(s, s', d, e); }
    }
  }

  lemma NowPast(cfg: Config, s: State, c: nat)
    requires Owned(cfg, s) && At(s, c) && s.threads[c].pc.Locking?
    ensures s.threads[c].pc.now <= s.clock
  {
    assert CallOk(s, c);
  }

  lemma NewUnclosed(cfg: Config, s: State)
    requires Owned(cfg, s)
    ensures |s.owners| !in s.closed
  {
  }

  lemma BeganLonger(s: State, s': State, i: nat, e: Event)
    requires i < |s.log| && BeganKnown(s, i) && s'.log == s.log + [e] && s.owners <= s'.owners
    requires forall id :: id in s'.closed && id !in s.closed ==> Closes(e, id)
    ensures BeganKnown(s', i)
  {
    var b := s.log[i];
    if b.Began? && b.entry.Some? {
      var id := b.entry.value;
      if id in s.closed {
        ClosedLonger(s.log, e, i, |s.log|, id);
      } else if id in s'.closed {
        assert Closes(s'.log[|s.log|], id);
      }
    }
  }

  lemma AccountedLonger(s: State, s': State, d: nat, e: Event)
    requires At(s, d) && At(s', d) && s'.threads[d] == s.threads[d] && Accounted(s, d) && s'.log == s.log + [e]
    ensures Accounted(s', d)
  {
    var me := s.threads[d];
    if me.pc.Finished? && !me.ran { CachedLonger(s.log, e, me.key, me.pc.out.response); }
  }

  /** A lookup that waits or replies leaves the log alone. */
  lemma LoggedAnswer(cfg: Config, s: State, c: nat)
    requires Proper(cfg) && Owned(cfg, s) && Logged(s) && Enabled(s, Lock(c))
    requires var me := s.threads[c];
             var v := Lookup(cfg, s.table, s.calls, |s.owners|, me.key, me.pc.now).verdict;
             v.Wait? || v.Reply?
    ensures Logged(Apply(cfg, s, Lock(c)))
  {
    hide Lookup;
    hide Owned;
    var me := s.threads[c];
    var s' := Apply(cfg, s, Lock(c));
    LookupTable(cfg, s.table, s.calls, |s.owners|, me.key, me.pc.now);
    LookupVerdict(cfg, s.table, s.calls, |s.owners|, me.key, me.pc.now);
    NowPast(cfg, s, c);
    forall i | 0 <= i < |s'.log| ensures StoredLive(s', s'.log[i]) { assert StoredLive(s, s.log[i]); }
    forall i | 0 <= i < |s'.log| ensures BeganKnown(s', i) { assert BeganKnown(s, i); }
    forall d | 0 <= d < |s'.threads| ensures Accounted(s', d) { assert Accounted(s, d); }
  }

  lemma LoggedDefer(cfg: Config, s: State, c: nat)
    requires Proper(cfg) && Owned(cfg, s) && Logged(s) && Enabled(s, Defer(c))
    ensures Logged(Apply(cfg, s, Defer(c)))
  {
    hide Owned;
    hide Settle;
    var me := s.threads[c];
    var key, id := me.key, me.pc.id;
    var s' := Apply(cfg, s, Defer(c));
    AlwaysStillCurrent(cfg, s, c);
    SettleFacts(cfg, s.table, key, id, ResponseOf(me.pc.out), s.clock);
    var e := s'.log[|s.log|];
    assert s'.log == s.log + [e];
    SafeClosed(s.log, e);
    forall i | 0 <= i < |s'.log| ensures StoredLive(s', s'.log[i]) {
      if i < |s.log| { assert StoredLive(s, s.log[i]); }
    }
    forall i | 0 <= i < |s'.log| ensures BeganKnown(s', i) {
      if i < |s.log| { BeganLonger(s, s', i, e); }
    }
    forall k | k in s'.table && s'.table[k].Done? ensures CachedAs(s'.log, k, s'.table[k].response) {
      if k == key { assert s'.log[|s.log|] == e; } else { CachedLonger(s.log, e, k, s.table[k].response); }
    }
    forall d | 0 <= d < |s'.threads| ensures Accounted(s', d) {
      assert Accounted(s, d);
      if d != c { AccountedLonger(s, s', d, e); }
    }
  }

  /** Steps that leave table, log and ownership alone. */
  lemma LoggedElse(cfg: Config, s: State, step: Step)
    requires Logged(s) && Enabled(s, step) && !step.Lock? && !step.Defer?
    ensures Logged(Apply(cfg, s, step))
  {
    var s' := Apply(cfg, s, step);
    forall i | 0 <= i < |s'.log| ensures StoredLive(s', s'.log[i]) { assert StoredLive(s, s.log[i]); }
    forall i | 0 <= i < |s'.log| ensures BeganKnown(s', i) { assert BeganKnown(s, i); }
    forall d | 0 <= d < |s'.threads| ensures Accounted(s', d) {
      if d < |s.threads| { assert Accounted(s, d); }
    }
  }

  lemma LoggedStep(cfg: Config, s: State, step: Step)
    requires Proper(cfg) && Owned(cfg, s) && Logged(s) && Enabled(s, step)
    ensures Logged(Apply(cfg, s, step))
  {
    hide Owned;
    hide Logged;
    hide Lookup;
    match step
    case Lock(c) =>
      var me := s.threads[c];
      var v := Lookup(cfg, s.table, s.calls, |s.owners|, me.key, me.pc.now).verdict;
      if v.Overflow? || v.Execute? { LoggedStart(cfg, s, c); } else { LoggedAnswer(cfg, s, c); }
    case Defer(c) => LoggedDefer(cfg, s, c);
    case _ => LoggedElse(cfg, s, step);
  }

  /** Every reachable state satisfies both invariants. */
  lemma {:induction false} Reachable(cfg: Config, clock: int, run: seq<Step>)
    requires Proper(cfg) && Run(cfg, clock, run).Some?
    ensures Owned(cfg, Run(cfg, clock, run).value) && Logged(Run(cfg, clock, run).value)
    decreases |run|
  {
    hide Apply;
    hide Enabled;
    if run == [] {
      OwnedInitially(cfg, clock);
    } else {
      hide Owned;
      hide Logged;
      var before := run[..|run| - 1];
      Reachable(cfg, clock, before);
      OwnedStep(cfg, Run(cfg, clock, before).value, run[|run| - 1]);
      LoggedStep(cfg, Run(cfg, clock, before).value, run[|run| - 1]);
    }
  }

  // ---- what follows for every run -----------------------------------------

  /** Idempotency over all interleavings: in the history of any run, a handler for a key never
      starts before an earlier response under that key has expired, and never while an earlier
      recorded execution under it is open, full table and stale clock readings included. */
  lemma NoSecondExecution(cfg: Config, clock: int, run: seq<Step>)
    requires Proper(cfg) && Run(cfg, clock, run).Some?
    ensures var log := Run(cfg, clock, run).value.log;
            && (forall i, j :: 0 <= i < j < |log| && log[i].Cached? && log[j].Began? && log[i].key == log[j].key ==>
                  log[j].at >= log[i].expires)
            && (forall i, j :: 0 <= i < j < |log| && log[i].Began? && log[i].entry.Some? && log[j].Began?
                                && log[i].key == log[j].key ==>
                  ClosedBetween(log, i, j, log[i].entry.value))
  {
    hide Run;
    Reachable(cfg, clock, run);
    var log := Run(cfg, clock, run).value.log;
    forall i, j | 0 <= i < j < |log| && log[i].Cached? && log[j].Began? && log[i].key == log[j].key
      ensures log[j].at >= log[i].expires
    {
      assert AfterExpiry(log[i], log[j]);
    }
    forall i, j | 0 <= i < j < |log| && log[i].Began? && log[i].entry.Some? && log[j].Began? && log[i].key == log[j].key
      ensures ClosedBetween(log, i, j, log[i].entry.value)
    {
      assert AfterClose(log, i, j);
    }
  }

  predicate Live(s: State, k: Key) {
    k in s.table && (s.table[k].InFlight? || s.clock < s.table[k].expires)
  }

  /** In any reachable state, no step starts a handler for a key whose entry is in flight or unexpired. */
  lemma LiveBlocks(cfg: Config, s: State, step: Step, k: Key)
    requires Proper(cfg) && Owned(cfg, s) && Enabled(s, step) && Live(s, k)
    ensures var s' := Apply(cfg, s, step);
            && s.log <= s'.log
            && (forall i :: |s.log| <= i < |s'.log| ==> !(s'.log[i].Began? && s'.log[i].key == k))
  {
    if step.Lock? {
      hide Lookup;
      var me := s.threads[step.c];
      NowPast(cfg, s, step.c);
      LookupVerdict(cfg, s.table, s.calls, |s.owners|, me.key, me.pc.now);
    }
  }

  // ---- where answers come from --------------------------------------------

  /** Call `c` ran the handler for `k` itself and ended with `r`. */
  predicate Answered(s: State, c: nat, k: Key, r: Message) {
    At(s, c) && s.threads[c].key == k && s.threads[c].ran && s.threads[c].pc == Finished(Answer(r))
  }

  /** Every response ever stored was produced by a call that ran the handler under the same key. */
  ghost predicate Produced(s: State) {
    forall i :: 0 <= i < |s.log| && s.log[i].Cached? ==>
      exists c: nat :: Answered(s, c, s.log[i].key, s.log[i].response)
  }

  lemma AnsweredStays(cfg: Config, s: State, step: Step, c: nat, k: Key, r: Message)
    requires Enabled(s, step) && Answered(s, c, k, r)
    ensures Answered(Apply(cfg, s, step), c, k, r)
  {
    hide Lookup;
    hide Settle;
  }

  /** The event a step adds to the log, if any; a stored response is its own call's. */
  lemma NewStored(cfg: Config, s: State, step: Step)
    requires Logged(s) && Enabled(s, step)
    ensures var s' := Apply(cfg, s, step);
            && s.log <= s'.log && |s'.log| <= |s.log| + 1
            && (|s'.log| > |s.log| && s'.log[|s.log|].Cached? ==>
                  step.Defer? && Answered(s', step.c, s'.log[|s.log|].key, s'.log[|s.log|].response))
  {
    hide Lookup;
    hide Settle;
    if step.Defer? { assert Accounted(s, step.c); }
    hide Logged;
  }

  lemma ProducedStep(cfg: Config, s: State, step: Step)
    requires Logged(s) && Produced(s) && Enabled(s, step)
    ensures Produced(Apply(cfg, s, step))
  {
    hide Apply;
    hide Enabled;
    hide Logged;
    hide Answered;
    var s' := Apply(cfg, s, step);
    NewStored(cfg, s, step);
    forall i | 0 <= i < |s'.log| && s'.log[i].Cached?
      ensures exists c: nat :: Answered(s', c, s'.log[i].key, s'.log[i].response)
    {
      if i < |s.log| {
        assert s'.log[i] == s.log[i];
        var c: nat :| Answered(s, c, s.log[i].key, s.log[i].response);
        AnsweredStays(cfg, s, step, c, s.log[i].key, s.log[i].response);
      }
    }
  }

  lemma {:induction false} AlwaysProduced(cfg: Config, clock: int, run: seq<Step>)
    requires Proper(cfg) && Run(cfg, clock, run).Some?
    ensures Produced(Run(cfg, clock, run).value)
    decreases |run|
  {
    hide Apply;
    hide Enabled;
    if run == [] {
    } else {
      hide Produced;
      var before := run[..|run| - 1];
      AlwaysProduced(cfg, clock, before);
      Reachable(cfg, clock, before);
      hide Owned;
      hide Logged;
      ProducedStep(cfg, Run(cfg, clock, before).value, run[|run| - 1]);
    }
  }

  /** The bound, and where answers come from: the table never outgrows its limit, and a call that did not
      run the handler was answered as another call under the same key was, which did run it. */
  lemma BoundedMemo(cfg: Config, clock: int, run: seq<Step>)
    requires Proper(cfg) && Run(cfg, clock, run).Some?
    ensures var s := Run(cfg, clock, run).value;
            && |s.table| <= cfg.maxEntries
            && (forall c :: 0 <= c < |s.threads| && s.threads[c].pc.Finished? && !s.threads[c].ran ==>
                  s.threads[c].pc.out.Answer?
                  && exists d: nat :: d != c && Answered(s, d, s.threads[c].key, s.threads[c].pc.out.response))
  {
    hide Run;
    Reachable(cfg, clock, run);
    AlwaysProduced(cfg, clock, run);
    var s := Run(cfg, clock, run).value;
    forall c | 0 <= c < |s.threads| && s.threads[c].pc.Finished? && !s.threads[c].ran
      ensures s.threads[c].pc.out.Answer?
              && exists d: nat :: d != c && Answered(s, d, s.threads[c].key, s.threads[c].pc.out.response)
    {
      assert Accounted(s, c);
      var k, r := s.threads[c].key, s.threads[c].pc.out.response;
      var m :| 0 <= m < |s.log| && s.log[m].Cached? && s.log[m].key == k && s.log[m].response == r;
      var d: nat :| Answered(s, d, k, r);
      assert d != c;
    }
  }

  // ---- what handlers returned ---------------------------------------------

  /** The keys of the calls of a run, in the order in which they arrived. */
  function Arrivals(run: seq<Step>): seq<Key> {
    if run == [] then []
    else
      var last := run[|run| - 1];
      Arrivals(run[..|run| - 1]) + if last.Arrive? then [last.key] else []
  }

  /** The handler of call `c` is over, with this outcome. */
  predicate Over(call: Call, out: Outcome) {
    call.ran && (call.pc == Finished(out) || (call.pc.Settling? && call.pc.out == out))
  }

  /** What the state says of the steps taken: who called, and whose handler returned what. */
  ghost predicate Traced(s: State, run: seq<Step>) {
    && |s.threads| == |Arrivals(run)|
    && (forall c :: 0 <= c < |s.threads| ==> s.threads[c].key == Arrivals(run)[c])
    && (forall c: nat, out :: Return(c, out) in run <==> At(s, c) && Over(s.threads[c], out))
    && (forall c :: 0 <= c < |s.threads| && s.threads[c].ran ==>
          var pc := s.threads[c].pc; pc.Running? || pc.RunningUnrecorded? || pc.Settling? || pc.Finished?)
  }

  /** What a step makes of the calls: at most one moves, and none changes its key. */
  lemma CallsMove(cfg: Config, s: State, step: Step, c: nat)
    requires Enabled(s, step) && At(s, c)
    ensures var s' := Apply(cfg, s, step);
            && |s'.threads| == |s.threads| + (if step.Arrive? then 1 else 0)
            && (step.Arrive? ==> s'.threads == s.threads + [Call(step.key, Start, [], false)])
            && s'.threads[c].key == s.threads[c].key
            && (step.Tick? || step.Arrive? || step.c != c ==> s'.threads[c] == s.threads[c])
  {
    hide Lookup;
    hide Settle;
  }

  /** How a call's own step moves it, as far as its handler's outcome goes. */
  lemma OwnMove(cfg: Config, s: State, step: Step, me: Call, me': Call)
    requires Logged(s) && Enabled(s, step) && !step.Tick? && !step.Arrive?
    requires me == s.threads[step.c] && At(Apply(cfg, s, step), step.c) && me' == Apply(cfg, s, step).threads[step.c]
    requires me.ran ==> !me.pc.Start? && !me.pc.Locking? && !me.pc.Waiting?
    ensures step.Return? ==> Over(me', step.out) && !me.pc.Settling? && !me.pc.Finished?
    ensures !step.Return? ==> forall out :: Over(me', out) <==> Over(me, out)
    ensures me'.ran ==> me'.pc.Running? || me'.pc.RunningUnrecorded? || me'.pc.Settling? || me'.pc.Finished?
  {
    hide Lookup;
    hide Settle;
    assert Accounted(s, step.c);
    hide Logged;
  }

  lemma OneOutcome(call: Call, out: Outcome, out': Outcome)
    requires Over(call, out) && Over(call, out')
    ensures out == out'
  {
  }

  lemma ArrivalsNext(run: seq<Step>, step: Step)
    ensures Arrivals(run + [step]) == Arrivals(run) + if step.Arrive? then [step.key] else []
  {
    assert (run + [step])[..|run|] == run;
  }

  lemma TracedArrive(cfg: Config, s: State, run: seq<Step>, step: Step)
    requires Traced(s, run) && Enabled(s, step) && (step.Arrive? || step.Tick?)
    ensures Traced(Apply(cfg, s, step), run + [step])
  {
    ArrivalsNext(run, step);
    hide Arrivals;
    var s' := Apply(cfg, s, step);
    assert forall c: nat, out :: Return(c, out) in run + [step] <==> Return(c, out) in run;
  }

  lemma TracedOwn(cfg: Config, s: State, run: seq<Step>, step: Step)
    requires Logged(s) && Traced(s, run) && Enabled(s, step) && !step.Arrive? && !step.Tick?
    ensures Traced(Apply(cfg, s, step), run + [step])
  {
    ArrivalsNext(run, step);
    hide Arrivals;
    CallsMove(cfg, s, step, step.c);
    var s' := Apply(cfg, s, step);
    OwnMove(cfg, s, step, s.threads[step.c], s'.threads[step.c]);
    hide Logged;
    forall c | 0 <= c < |s.threads|
      ensures |s'.threads| == |s.threads| && s'.threads[c].key == s.threads[c].key
              && (c != step.c ==> s'.threads[c] == s.threads[c])
    {
      CallsMove(cfg, s, step, c);
    }
    hide Apply;
    forall c: nat, out ensures Return(c, out) in run + [step] <==> At(s', c) && Over(s'.threads[c], out) {
      assert Return(c, out) in run + [step] <==> Return(c, out) in run || Return(c, out) == step;
      if c == step.c && step.Return? {
        if Over(s'.threads[c], out) { OneOutcome(s'.threads[c], out, step.out); }
      }
    }
  }

  /** Over any run the calls are the arrivals, and a handler's outcome is what a return step of its own call
      gave, once. */
  lemma {:induction false} AlwaysTraced(cfg: Config, clock: int, run: seq<Step>)
    requires Proper(cfg) && Run(cfg, clock, run).Some?
    ensures Traced(Run(cfg, clock, run).value, run)
    decreases |run|
  {
    hide Apply;
    hide Enabled;
    if run == [] {
    } else {
      hide Traced;
      var before, step := run[..|run| - 1], run[|run| - 1];
      AlwaysTraced(cfg, clock, before);
      Reachable(cfg, clock, before);
      hide Owned;
      hide Logged;
      assert run == before + [step];
      var s := Run(cfg, clock, before).value;
      if step.Arrive? || step.Tick? { TracedArrive(cfg, s, before, step); } else { TracedOwn(cfg, s, before, step); }
    }
  }

  /** Where every answer comes from, in terms of the steps alone: a call that is over ended with what its own
      handler returned or, if that never returned, with an answer the handler of another call under the same
      key did return. */
  lemma AnswersReturned(cfg: Config, clock: int, run: seq<Step>, c: nat)
    requires Proper(cfg) && Run(cfg, clock, run).Some?
    requires At(Run(cfg, clock, run).value, c) && Run(cfg, clock, run).value.threads[c].pc.Finished?
    ensures var out := Run(cfg, clock, run).value.threads[c].pc.out;
            var keys := Arrivals(run);
            && c < |keys|
            && (|| Return(c, out) in run
                || (&& out.Answer? && (forall o :: Return(c, o) !in run)
                    && exists d: nat :: d < |keys| && d != c && keys[d] == keys[c] && Return(d, out) in run))
  {
    hide Run;
    BoundedMemo(cfg, clock, run);
    AlwaysTraced(cfg, clock, run);
    hide Arrivals;
    var s := Run(cfg, clock, run).value;
    var me := s.threads[c];
    if me.ran {
      assert Over(me, me.pc.out);
    } else {
      var d: nat :| d != c && Answered(s, d, me.key, me.pc.out.response);
      assert Over(s.threads[d], me.pc.out);
    }
  }

  // ---- how long an answer is kept -----------------------------------------

  lemma {:induction false} RunsSoFar(cfg: Config, clock: int, run: seq<Step>, k: nat)
    requires Run(cfg, clock, run).Some? && k <= |run|
    ensures Run(cfg, clock, run[..k]).Some?
    decreases |run|
  {
    hide Apply;
    hide Enabled;
    if k == |run| {
      assert run[..k] == run;
    } else {
      var before := run[..|run| - 1];
      RunsSoFar(cfg, clock, before, k);
      assert before[..k] == run[..k];
    }
  }

  lemma RunStep(cfg: Config, clock: int, run: seq<Step>, k: nat)
    requires Proper(cfg) && Run(cfg, clock, run).Some? && k < |run|
    ensures Run(cfg, clock, run[..k]).Some? && Run(cfg, clock, run[..k + 1]).Some?
    ensures var s := Run(cfg, clock, run[..k]).value;
            && Owned(cfg, s) && Logged(s) && Enabled(s, run[k])
            && Run(cfg, clock, run[..k + 1]).value == Apply(cfg, s, run[k])
  {
    hide Apply;
    hide Enabled;
    hide Owned;
    hide Logged;
    RunsSoFar(cfg, clock, run, k);
    RunsSoFar(cfg, clock, run, k + 1);
    Reachable(cfg, clock, run[..k]);
    assert run[..k + 1][..k] == run[..k] && run[..k + 1][k] == run[k];
  }

  lemma {:induction false} LogGrows(cfg: Config, clock: int, run: seq<Step>, i: nat, j: nat)
    requires Proper(cfg) && Run(cfg, clock, run).Some? && i <= j <= |run|
    ensures Run(cfg, clock, run[..i]).Some? && Run(cfg, clock, run[..j]).Some?
    ensures Run(cfg, clock, run[..i]).value.log <= Run(cfg, clock, run[..j]).value.log
    decreases j
  {
    hide Run;
    hide Apply;
    hide Owned;
    hide Logged;
    RunsSoFar(cfg, clock, run, i);
    if i == j {
    } else {
      LogGrows(cfg, clock, run, i, j - 1);
      RunStep(cfg, clock, run, j - 1);
      NewStored(cfg, Run(cfg, clock, run[..j - 1]).value, run[j - 1]);
    }
  }

  /** The deferred section of a call that has an answer stores it, for the time to live from that moment on. */
  lemma AnswerStored(cfg: Config, s: State, c: nat)
    requires Owned(cfg, s) && Enabled(s, Defer(c)) && s.threads[c].pc.out.Answer?
    ensures var me, s' := s.threads[c], Apply(cfg, s, Defer(c));
            && |s'.log| == |s.log| + 1
            && s'.log[|s.log|] == Cached(me.key, me.pc.id, me.pc.out.response, s.clock + cfg.ttl)
            && me.key in s'.table && s'.table[me.key] == Done(me.pc.id, me.pc.out.response, s.clock + cfg.ttl)
  {
    AlwaysStillCurrent(cfg, s, c);
    hide Owned;
  }

  lemma LiveNotRun(cfg: Config, s: State, d: nat)
    requires Proper(cfg) && Owned(cfg, s) && Logged(s) && Enabled(s, Lock(d)) && Live(s, s.threads[d].key)
    ensures At(Apply(cfg, s, Lock(d)), d) && Apply(cfg, s, Lock(d)).threads[d].ran == s.threads[d].ran
  {
    var me := s.threads[d];
    NowPast(cfg, s, d);
    hide Owned;
    hide Logged;
    LookupVerdict(cfg, s.table, s.calls, |s.owners|, me.key, me.pc.now);
    hide Lookup;
  }

  /** Memory in terms of steps and clock alone: within the time to live of the step by which a call stored its answer,
      no lookup under its key starts a handler. */
  lemma KeptForTtl(cfg: Config, clock: int, run: seq<Step>, i: nat, c: nat, j: nat, d: nat)
    requires Proper(cfg) && Run(cfg, clock, run).Some? && i < j < |run| && run[i] == Defer(c) && run[j] == Lock(d)
    requires Run(cfg, clock, run[..i]).Some? && Run(cfg, clock, run[..j]).Some?
    requires At(Run(cfg, clock, run[..i]).value, c) && At(Run(cfg, clock, run[..j]).value, d)
    requires var s, t := Run(cfg, clock, run[..i]).value, Run(cfg, clock, run[..j]).value;
             && s.threads[c].pc.Settling? && s.threads[c].pc.out.Answer?
             && t.threads[d].key == s.threads[c].key && t.clock < s.clock + cfg.ttl
    ensures Run(cfg, clock, run[..j + 1]).Some? && At(Run(cfg, clock, run[..j + 1]).value, d)
    ensures Run(cfg, clock, run[..j + 1]).value.threads[d].ran == Run(cfg, clock, run[..j]).value.threads[d].ran
  {
    hide Run;
    hide Apply;
    RunStep(cfg, clock, run, i);
    var s, t := Run(cfg, clock, run[..i]).value, Run(cfg, clock, run[..j]).value;
    AnswerStored(cfg, s, c);
    LogGrows(cfg, clock, run, i + 1, j);
    RunStep(cfg, clock, run, j);
    var e := t.log[|s.log|];
    assert e == Cached(s.threads[c].key, s.threads[c].pc.id, s.threads[c].pc.out.response, s.clock + cfg.ttl);
    assert StoredLive(t, e);
    hide Owned;
    hide Logged;
    LiveNotRun(cfg, t, d);
  }

  // ---- progress -----------------------------------------------------------

  /** From the end of its handler on, an executor's next step closes its entry. */
  lemma SettlingCloses(cfg: Config, s: State, d: nat)
    requires Owned(cfg, s) && At(s, d) && s.threads[d].pc.Settling?
    ensures Enabled(s, Defer(d)) && s.threads[d].pc.id in Apply(cfg, s, Defer(d)).closed
    ensures forall c: nat :: At(s, c) && c != d ==>
              At(Apply(cfg, s, Defer(d)), c) && Apply(cfg, s, Defer(d)).threads[c] == s.threads[c]
  {
    AlwaysStillCurrent(cfg, s, d);
    hide Owned;
    hide Settle;
  }

  /** What releases the waiter `c` of an entry whose creator `d` still runs: whatever its handler does,
      its return and its deferred section leave `c` free to go on. */
  predicate Releases(cfg: Config, s: State, d: nat, c: nat, out: Outcome) {
    && Enabled(s, Return(d, out))
    && var s1 := Apply(cfg, s, Return(d, out));
       && Enabled(s1, Defer(d)) && Enabled(Apply(cfg, s1, Defer(d)), Wake(c))
  }

  lemma RunnerReleases(cfg: Config, s: State, d: nat, c: nat, out: Outcome)
    requires Proper(cfg) && Owned(cfg, s) && At(s, d) && At(s, c) && c != d
    requires s.threads[d].pc.Running? && s.threads[c].pc == Waiting(s.threads[d].pc.id)
    ensures Releases(cfg, s, d, c, out)
  {
    OwnedStep(cfg, s, Return(d, out));
    var s1 := Apply(cfg, s, Return(d, out));
    assert s1.threads[d].pc == Settling(s.threads[d].pc.id, out) && s1.threads[c] == s.threads[c];
    SettlingCloses(cfg, s1, d);
    hide Apply;
    hide Owned;
  }

  /** A waiter can always be released: its entry is closed, or the call that created it is still
      executing, and the rest of that call releases it, whether its handler answers, returns nil or panics. */
  lemma WaiterReleased(cfg: Config, clock: int, run: seq<Step>, c: nat)
    requires Proper(cfg) && Run(cfg, clock, run).Some?
    requires var s := Run(cfg, clock, run).value; At(s, c) && s.threads[c].pc.Waiting?
    ensures var s := Run(cfg, clock, run).value;
            var id := s.threads[c].pc.id;
            || Enabled(s, Wake(c))
            || (&& id < |s.owners| && s.owners[id].call != c
                && var d := s.owners[id].call;
                   && At(s, d) && Executes(s.threads[d], id)
                   && (s.threads[d].pc.Running? ==> forall out :: Releases(cfg, s, d, c, out))
                   && (s.threads[d].pc.Settling? ==>
                         Enabled(s, Defer(d)) && Enabled(Apply(cfg, s, Defer(d)), Wake(c))))
  {
    hide Run;
    Reachable(cfg, clock, run);
    var s := Run(cfg, clock, run).value;
    assert CallOk(s, c);
    var id := s.threads[c].pc.id;
    assert WaitOk(s, c, id);
    assert OwnerOk(s, id);
    var d := s.owners[id].call;
    hide Owned;
    hide Logged;
    hide Apply;
    if id !in s.closed {
      if s.threads[d].pc.Settling? { SettlingCloses(cfg, s, d); }
      else {
        forall out ensures Releases(cfg, s, d, c, out) { RunnerReleases(cfg, s, d, c, out); }
      }
    }
  }

  function Others(s: State, c: nat): set<nat>
    requires At(s, c)
  {
    set d: nat | d < |s.threads| && d != c && s.threads[d].key == s.threads[c].key
  }

  lemma {:induction false} DistinctOwners(s: State, ws: seq<nat>) returns (cs: set<nat>)
    requires NoRepeats(ws) && OneEntryEach(s)
    requires forall i :: 0 <= i < |ws| ==> ws[i] < |s.owners|
    ensures |cs| == |ws|
    ensures forall d :: d in cs <==> exists w :: w in ws && w < |s.owners| && s.owners[w].call == d
  {
    if ws == [] {
      cs := {};
    } else {
      var tail := ws[1..];
      assert ws == [ws[0]] + tail;
      var rest := DistinctOwners(s, tail);
      var d0 := s.owners[ws[0]].call;
      assert forall w :: w in tail ==> w != ws[0];
      assert d0 !in rest;
      cs := rest + {d0};
    }
  }

  /** With finitely many callers on a key, a call waits at most once per other caller. */
  lemma WaitBound(cfg: Config, clock: int, run: seq<Step>, c: nat)
    requires Proper(cfg) && Run(cfg, clock, run).Some?
    requires At(Run(cfg, clock, run).value, c)
    ensures var s := Run(cfg, clock, run).value; |s.threads[c].waits| <= |Others(s, c)|
  {
    hide Run;
    Reachable(cfg, clock, run);
    var s := Run(cfg, clock, run).value;
    assert CallOk(s, c);
    var ws := s.threads[c].waits;
    assert forall w :: w in ws ==> WaitOk(s, c, w);
    assert forall i :: 0 <= i < |ws| ==> ws[i] in ws;
    var cs := DistinctOwners(s, ws);
    forall d | d in cs ensures d in Others(s, c) {
      var w :| w in ws && w < |s.owners| && s.owners[w].call == d;
      assert WaitOk(s, c, w) && OwnerOk(s, w);
    }
    SubsetCard(cs, Others(s, c));
  }
}
