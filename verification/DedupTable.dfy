/** The deduplicator's mutable table: the two critical sections of server/rmc_dedup.go
    on heap objects, proved against the functions of the step system.

    Messages are objects with their own body array, so that a cached response and
    a returned one can be shown not to share storage.
 */
module DedupTable {
  import opened Bytes
  import opened Rmc
  import opened Dedup

  /** An RMC message with a mutable body; `head` holds every other field. */
  class Response {
    const head: Message
    const body: array<u8>

    constructor (h: Message, b: array<u8>)
      ensures head == h && body == b
    {
      head, body := h, b;
    }

    ghost function Value(): Message
      reads body
    {
      if head.Failure? then head else head.(body := body[..])
    }
  }

  method Clone(m: Response?) returns (c: Response?)
    ensures m == null <==> c == null
    ensures m != null ==> fresh(c) && fresh(c.body) && c.Value() == m.Value()
  {
    if m == null { return null; }
    var b := new u8[m.body.Length];
    for i := 0 to b.Length
      invariant forall k :: 0 <= k < i ==> b[k] == m.body[k]
    {
      b[i] := m.body[i];
    }
    c := new Response(m.head, b);
    assert c.body[..] == m.body[..];
  }

  /** A table entry: running, or a kept copy of the response. `id` stands for the entry's identity. */
  datatype Entry = Busy(id: nat) | Kept(id: nat, response: Response, expires: int)

  datatype Ticket = WaitFor(id: nat) | ReplyWith(response: Response) | RunUnrecorded | RunFor(id: nat)

  ghost predicate Answers(t: Ticket, v: Verdict)
    reads if t.ReplyWith? then {t.response.body} else {}
  {
    match t
    case WaitFor(id) => v == Wait(id)
    case ReplyWith(r) => v == Reply(r.Value())
    case RunUnrecorded => v == Overflow
    case RunFor(id) => v == Execute(id)
  }

  class Deduplicator {
    const cfg: Config
    var entries: map<Key, Entry>
    var calls: u64
    var nextId: nat
    ghost var table: Table            // what the entries hold, as values
    ghost var bodies: set<array<u8>>  // the body arrays the cache has held

    constructor (ttl: int, maxEntries: int)
      ensures Valid() && cfg == NewConfig(ttl, maxEntries) && table == map[] && calls == 0 && bodies == {}
    {
      cfg := NewConfig(ttl, maxEntries);
      entries, calls, nextId, table, bodies := map[], 0, 0, map[], {};
    }

    ghost predicate Holds(e: Entry, slot: Slot)
      reads this`bodies, bodies
    {
      match e
      case Busy(id) => slot == InFlight(id)
      case Kept(id, r, expires) => r.body in bodies && slot == Done(id, r.Value(), expires)
    }

    ghost predicate Valid()
      reads this, bodies
    {
      && Proper(cfg)
      && entries.Keys == table.Keys
      && (forall k :: k in entries ==> Holds(entries[k], table[k]))
    }

    method Remove(key: Key)
      requires Valid()
      modifies this`entries, this`table
      ensures Valid() && table == old(table) - {key}
    {
      entries := entries - {key};
      table := table - {key};
    }

    method PruneLocked(now: int)
      requires Valid()
      modifies this`entries, this`table
      ensures Valid() && table == Prune(old(table), now)
    {
      var left := entries.Keys;
      while left != {}
        invariant Valid()
        invariant left <= entries.Keys
        invariant forall k :: k in table <==> k in old(table) && (k in left || !Expired(old(table)[k], now))
        invariant forall k :: k in table ==> table[k] == old(table)[k]
        decreases left
      {
        var k :| k in left;
        var e := entries[k];
        assert Holds(e, table[k]);
        if e.Kept? && now >= e.expires { Remove(k); }
        left := left - {k};
      }
    }

    /** The critical section of `wrap`. A reply shares no storage with the cache or anything older. */
    method Enter(key: Key, now: int) returns (t: Ticket)
      requires Valid()
      modifies this`entries, this`calls, this`nextId, this`table
      ensures Valid()
      ensures var l := Lookup(cfg, old(table), old(calls), old(nextId), key, now);
              table == l.table && calls == l.calls && Answers(t, l.verdict)
      ensures nextId == old(nextId) + (if t.RunFor? then 1 else 0)
      ensures t.ReplyWith? ==> fresh(t.response) && fresh(t.response.body)
    {
      hide Consult;
      hide Prune;
      calls := Bump(calls);
      if calls % 256 == 0 || |entries| >= cfg.maxEntries { PruneLocked(now); }
      t := Consulted(key, now);
    }

    method Consulted(key: Key, now: int) returns (t: Ticket)
      requires Valid()
      modifies this`entries, this`nextId, this`table
      ensures Valid()
      ensures var l := Consult(cfg, old(table), calls, old(nextId), key, now);
              table == l.table && l.calls == calls && Answers(t, l.verdict)
      ensures nextId == old(nextId) + (if t.RunFor? then 1 else 0)
      ensures t.ReplyWith? ==> fresh(t.response) && fresh(t.response.body)
    {
      if key in entries {
        var e := entries[key];
        assert Holds(e, table[key]);
        if e.Busy? { return WaitFor(e.id); }
        if now < e.expires {
          var r := Clone(e.response);
          return ReplyWith(r);
        }
      }
      Remove(key);
      if |entries| >= cfg.maxEntries { return RunUnrecorded; }
      t := RunFor(nextId);
      Insert(key);
    }

    method Insert(key: Key)
      requires Valid()
      modifies this`entries, this`nextId, this`table
      ensures Valid() && nextId == old(nextId) + 1 && table == old(table)[key := InFlight(old(nextId))]
    {
      entries, table := entries[key := Busy(nextId)], table[key := InFlight(nextId)];
      nextId := nextId + 1;
    }

    /** Caches a copy of a response: the body stored is not the caller's. */
    method Keep(key: Key, id: nat, response: Response, now: int)
      requires Valid()
      modifies this`entries, this`table, this`bodies
      ensures Valid() && fresh(bodies - old(bodies)) && old(bodies) <= bodies
      ensures table == old(table)[key := Done(id, response.Value(), now + cfg.ttl)]
    {
      hide Proper;
      hide Response.Value;
      var copy := Clone(response);
      bodies := bodies + {copy.body};
      entries := entries[key := Kept(id, copy, now + cfg.ttl)];
      table := table[key := Done(id, response.Value(), now + cfg.ttl)];
      forall k | k in entries && k != key ensures Holds(entries[k], table[k]) {
        assert old(Holds(entries[k], table[k]));
      }
    }

    /** The deferred critical section of `execute`. */
    method Finish(key: Key, id: nat, response: Response?, now: int)
      requires Valid()
      modifies this`entries, this`table, this`bodies
      ensures Valid() && fresh(bodies - old(bodies)) && old(bodies) <= bodies
      ensures table == Settle(cfg, old(table), key, id, if response == null then None else Some(response.Value()), now)
    {
      hide Response.Value;
      if key in entries {
        assert Holds(entries[key], table[key]);
        if entries[key].id == id {
          if response == null { Remove(key); } else { Keep(key, id, response, now); }
        }
      }
    }
  }
}
