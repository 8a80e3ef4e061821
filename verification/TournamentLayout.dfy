/** Where the code field of a tournament lies (nextendo-nex/tournament.go), in terms of how such a payload is
    put together: header, name, properties, terminator. */
module TournamentLayout {
  import opened Bytes
  import opened Tournament
  import opened TournamentStore

  /** A property: an id, a kind and as many bytes as the kind says. */
  datatype Property = Property(id: u8, kind: u8, data: bytes)

  predicate Known(p: Property) {
    && p.id != 0xFF
    && ((p.kind == 1 && |p.data| == 2) || (p.kind == 2 && |p.data| == 3) || (p.kind == 4 && |p.data| == 5))
  }

  predicate AllKnown(ps: seq<Property>) { forall k :: 0 <= k < |ps| ==> Known(ps[k]) }

  function PropertiesBytes(ps: seq<Property>): bytes {
    if ps == [] then [] else [ps[0].id, ps[0].kind] + ps[0].data + PropertiesBytes(ps[1..])
  }

  /** `head` is what precedes the name, `rest` what follows the terminator and its four bytes. */
  datatype Layout = Layout(head: bytes, name: bytes, properties: seq<Property>, end: bytes, rest: bytes)

  predicate Proper(y: Layout) {
    && |y.head| == 0x69 && 2 <= |y.name| < 0x1_0000 && |y.name| % 2 == 0
    && AllKnown(y.properties) && |y.end| == 4 && |y.rest| >= 3
  }

  /** Everything before the code field. */
  function Front(y: Layout): bytes
    requires |y.name| < 0x1_0000
  {
    y.head + Le16(|y.name|) + y.name + PropertiesBytes(y.properties) + ([0xFF] + y.end)
  }

  function Built(y: Layout): bytes
    requires |y.name| < 0x1_0000
  {
    Front(y) + y.rest
  }

  // ---- a payload so built is read so --------------------------------------

  lemma PropertyParts(p: Property, tail: bytes)
    ensures var list, n := [p.id, p.kind] + p.data + tail, |p.data| + 2;
            |list| == n + |tail| && list[0] == p.id && list[1] == p.kind && list[n..n + |tail|] == tail
  {
    var front := [p.id, p.kind] + p.data;
    assert (front + tail)[|front|..|front| + |tail|] == tail;
    assert front[0] == p.id && front[1] == p.kind;
  }

  lemma Taken(b: bytes, pos: nat, list: bytes, n: nat)
    requires 2 <= n <= |list| && pos + |list| <= |b| && b[pos..pos + |list|] == list
    ensures b[pos] == list[0] && b[pos + 1] == list[1] && b[pos + n..pos + |list|] == list[n..|list|]
  {
    assert b[pos] == b[pos..pos + |list|][0] && b[pos + 1] == b[pos..pos + |list|][1];
    Inner(b, pos, pos + |list|, n, |list|);
  }

  /** The first property of a list found at `pos`, and where the others are. */
  lemma FirstProperty(b: bytes, pos: nat, ps: seq<Property>)
    requires ps != [] && pos + |PropertiesBytes(ps)| <= |b|
    requires b[pos..pos + |PropertiesBytes(ps)|] == PropertiesBytes(ps)
    ensures var n, tail := |ps[0].data| + 2, PropertiesBytes(ps[1..]);
            && |PropertiesBytes(ps)| == n + |tail| && b[pos] == ps[0].id && b[pos + 1] == ps[0].kind
            && b[pos + n..pos + n + |tail|] == tail
  {
    var list, p, tail := PropertiesBytes(ps), ps[0], PropertiesBytes(ps[1..]);
    assert list == [p.id, p.kind] + p.data + tail;
    hide PropertiesBytes;
    PropertyParts(p, tail);
    Taken(b, pos, list, |p.data| + 2);
  }

  lemma KnownStep(b: bytes, pos: nat, p: Property)
    requires Known(p) && pos + 2 <= |b| && b[pos] == p.id && b[pos + 1] == p.kind
    ensures Walk(b, pos) == Walk(b, pos + |p.data| + 2)
  {
    hide Scan;
  }

  /** The walk over known properties goes on behind them. */
  lemma {:induction false} WalkOn(b: bytes, pos: nat, ps: seq<Property>)
    requires AllKnown(ps) && pos + |PropertiesBytes(ps)| <= |b|
    requires b[pos..pos + |PropertiesBytes(ps)|] == PropertiesBytes(ps)
    ensures Walk(b, pos) == Walk(b, pos + |PropertiesBytes(ps)|)
    decreases |ps|
  {
    if ps == [] {
    } else {
      hide Walk;
      hide PropertiesBytes;
      FirstProperty(b, pos, ps);
      KnownStep(b, pos, ps[0]);
      WalkOn(b, pos + |ps[0].data| + 2, ps[1..]);
    }
  }

  lemma Slice(a: bytes, b: bytes, c: bytes)
    ensures (a + b + c)[|a|..|a| + |b|] == b
  {
  }

  lemma NameFound(head: bytes, name: bytes, more: bytes)
    requires |head| == 0x69 && 2 <= |name| < 0x1_0000 && |name| % 2 == 0 && more != []
    ensures NameEnd(head + Le16(|name|) + name + more) == Some(0x6B + |name|)
  {
    var n := |name|;
    var b := head + Le16(n) + name + more;
    assert b == head + Le16(n) + (name + more);
    Slice(head, Le16(n), name + more);
    Le16RoundTrip(n);
    hide Le16;
    hide FromLe16;
    assert b[0x69..0x6B] == Le16(n);
  }

  /** What precedes the first property that is not known. */
  function KnownPart(head: bytes, name: bytes, ps: seq<Property>): bytes
    requires |name| < 0x1_0000
  {
    head + Le16(|name|) + name + PropertiesBytes(ps)
  }

  /** From the name on, the walk goes straight to what follows the known properties. */
  lemma PastKnown(head: bytes, name: bytes, ps: seq<Property>, behind: bytes)
    requires |head| == 0x69 && 2 <= |name| < 0x1_0000 && |name| % 2 == 0 && AllKnown(ps) && behind != []
    ensures Locate(KnownPart(head, name, ps) + behind)
         == Walk(KnownPart(head, name, ps) + behind, |KnownPart(head, name, ps)|)
  {
    hide PropertiesBytes;
    hide Le16;
    hide Walk;
    hide AllKnown;
    var named, list := head + Le16(|name|) + name, PropertiesBytes(ps);
    NameFound(head, name, list + behind);
    hide NameEnd;
    Assoc(named, list, behind);
    Slice(named, list, behind);
    WalkOn(named + list + behind, |named|, ps);
  }

  /** The code field of such a payload is what follows the terminator, whatever its properties are. */
  lemma BuiltLocated(y: Layout)
    requires Proper(y)
    ensures Locate(Built(y)) == Terminated(|Front(y)|)
  {
    var front := KnownPart(y.head, y.name, y.properties);
    assert Front(y) == front + ([0xFF] + y.end);
    hide KnownPart;
    hide Front;
    hide AllKnown;
    Assoc(front, [0xFF] + y.end, y.rest);
    PastKnown(y.head, y.name, y.properties, [0xFF] + y.end + y.rest);
    hide Locate;
    hide Walk;
    Terminator(front, y.end, y.rest);
  }

  lemma Terminator(front: bytes, end: bytes, rest: bytes)
    requires |end| == 4 && |rest| >= 3
    ensures Walk(front + ([0xFF] + end + rest), |front|) == Terminated(|front| + 5)
  {
    var b := front + ([0xFF] + end + rest);
    assert b[|front|] == 0xFF;
  }

  /** A payload so built is accepted if and only if its code field is empty, it is within the limit, the store has
      room and the next id is not zero. */
  lemma BuiltAccepted(y: Layout, s: Store, owner: u64, mark: bytes, code: bytes)
    requires Proper(y) && |mark| == 8 && Digits(code)
    ensures Create(s, owner, Built(y), mark, code).1.Some? <==>
              && y.rest[0] == 1 && y.rest[1] == 0 && y.rest[2] == 0
              && |Built(y)| <= 4096 && |s.byID| < 2000 && s.nextID != 0
  {
    hide TournamentStore.Create;
    BuiltLocated(y);
    hide Locate;
    LocateBounds(Built(y));
    AcceptedExactly(s, owner, Built(y), mark, code);
    var b, i := Built(y), |Front(y)|;
    EmptyAt(b, i);
    assert b[i] == y.rest[0] && b[i + 1] == y.rest[1] && b[i + 2] == y.rest[2];
    hide Front;
    hide Digits;
  }

  // ---- and no other is ----------------------------------------------------

  lemma OneMore(b: bytes, pos: nat, n: nat, more: seq<Property>) returns (ps: seq<Property>)
    requires 2 <= n && pos + n + |PropertiesBytes(more)| <= |b|
    requires b[pos + n..pos + n + |PropertiesBytes(more)|] == PropertiesBytes(more)
    ensures ps == [Property(b[pos], b[pos + 1], b[pos + 2..pos + n])] + more
    ensures |PropertiesBytes(ps)| == n + |PropertiesBytes(more)|
    ensures b[pos..pos + |PropertiesBytes(ps)|] == PropertiesBytes(ps)
  {
    var p := Property(b[pos], b[pos + 1], b[pos + 2..pos + n]);
    ps := [p] + more;
    assert ps[1..] == more;
    var tail := PropertiesBytes(more);
    assert PropertiesBytes(ps) == [p.id, p.kind] + p.data + tail;
    hide PropertiesBytes;
    assert b[pos..pos + n] == [p.id, p.kind] + p.data;
    assert b[pos..pos + n + |tail|] == b[pos..pos + n] + b[pos + n..pos + n + |tail|];
  }

  /** A walk that ends at a terminator has passed known properties only. */
  lemma {:induction false} WalkedOver(b: bytes, pos: nat) returns (ps: seq<Property>)
    requires Walk(b, pos).Terminated?
    ensures AllKnown(ps) && pos + |PropertiesBytes(ps)| + 8 <= |b|
    ensures b[pos..pos + |PropertiesBytes(ps)|] == PropertiesBytes(ps) && b[pos + |PropertiesBytes(ps)|] == 0xFF
    decreases |b| - pos
  {
    if b[pos] == 0xFF {
      ps := [];
    } else {
      ScanFinds(b, pos);
      hide Scan;
      hide PropertiesBytes;
      var n := PropertySize(b[pos + 1]);
      WalkBounds(b, pos + n);
      var more := WalkedOver(b, pos + n);
      ps := OneMore(b, pos, n, more);
      hide Walk;
    }
  }

  lemma NameParts(b: bytes)
    requires NameEnd(b).Some?
    ensures var pos := NameEnd(b).value;
            && 0x6D <= pos <= |b| && pos - 0x6B < 0x1_0000 && (pos - 0x6B) % 2 == 0
            && b[0x69..0x6B] == Le16(pos - 0x6B)
  {
    FromLe16Back(b[0x69..0x6B]);
    hide Le16;
    hide FromLe16;
  }

  /** A code field behind a terminator is found in no other payload. */
  lemma LocatedBuilt(b: bytes) returns (y: Layout)
    requires Locate(b).Terminated?
    ensures Proper(y) && Built(y) == b && Locate(b) == Terminated(|Front(y)|)
  {
    hide NameEnd;
    hide Walk;
    hide PropertiesBytes;
    hide Le16;
    NameParts(b);
    var pos := NameEnd(b).value;
    var ps := WalkedOver(b, pos);
    var at := pos + |PropertiesBytes(ps)|;
    y := Layout(b[..0x69], b[0x6B..pos], ps, b[at + 1..at + 5], b[at + 5..]);
    hide Locate;
    assert b[at..at + 5] == [0xFF] + y.end;
    Cut5(b, 0x69, 0x6B, pos, at, at + 5);
    BuiltLocated(y);
  }

  /** Twelve decimal digits. */
  predicate TwelveDigits(code: bytes) { |code| == 12 && forall i :: 0 <= i < |code| ==> 48 <= code[i] <= 57 }

  lemma OnlyDigits(s: Store, owner: u64, payload: bytes, mark: bytes, code: bytes)
    requires |mark| == 8
    ensures Create(s, owner, payload, mark, code).1.Some? ==> TwelveDigits(code)
    ensures TwelveDigits(code) <==> Digits(code)
  {
    hide Locate;
    hide Stamp;
    hide Acceptable;
    hide FromLe16;
    hide FromLe32;
  }

  /** Put together in this layout, with an empty code field. */
  ghost predicate EmptyBuilt(payload: bytes) {
    exists y: Layout :: Proper(y) && Built(y) == payload && y.rest[..3] == [1, 0, 0]
  }

  lemma EmptyRest(rest: bytes)
    requires |rest| >= 3
    ensures rest[..3] == [1, 0, 0] <==> rest[0] == 1 && rest[1] == 0 && rest[2] == 0
  {
    assert rest[0] == rest[..3][0] && rest[1] == rest[..3][1] && rest[2] == rest[..3][2];
  }

  lemma StampableBuilt(s: Store, owner: u64, payload: bytes, mark: bytes, code: bytes)
    requires |mark| == 8 && Digits(code)
    ensures Create(s, owner, payload, mark, code).1.Some? <==>
              |payload| <= 4096 && |s.byID| < 2000 && s.nextID != 0 && EmptyBuilt(payload)
  {
    hide TournamentStore.Create;
    hide Built;
    hide Digits;
    if EmptyBuilt(payload) {
      var y: Layout :| Proper(y) && Built(y) == payload && y.rest[..3] == [1, 0, 0];
      EmptyRest(y.rest);
      BuiltAccepted(y, s, owner, mark, code);
    }
    if Create(s, owner, payload, mark, code).1.Some? {
      AcceptedExactly(s, owner, payload, mark, code);
      var y := LocatedBuilt(payload);
      EmptyRest(y.rest);
      BuiltAccepted(y, s, owner, mark, code);
    }
  }

  /** Exactly what is accepted: a payload of this layout with an empty code field, within the limit, with a code of
      twelve digits, while the store has room and the next id is not zero. */
  lemma AcceptedBuilt(s: Store, owner: u64, payload: bytes, mark: bytes, code: bytes)
    requires |mark| == 8
    ensures Create(s, owner, payload, mark, code).1.Some? <==>
              && |payload| <= 4096 && |s.byID| < 2000 && s.nextID != 0 && TwelveDigits(code)
              && exists y: Layout :: Proper(y) && Built(y) == payload && y.rest[..3] == [1, 0, 0]
  {
    OnlyDigits(s, owner, payload, mark, code);
    hide TournamentStore.Create;
    hide Built;
    hide Digits;
    hide TwelveDigits;
    if Digits(code) { StampableBuilt(s, owner, payload, mark, code); }
  }

  /** What is stored on acceptance: the owner is registered, the payload carries the new id and mark, and only the new
      entry is added. The first id is 1000. */
  lemma StoredExactly(s: Store, owner: u64, payload: bytes, mark: bytes, code: bytes)
    requires |mark| == 8 && Create(s, owner, payload, mark, code).1.Some?
    ensures var (s', e) := Create(s, owner, payload, mark, code);
            var t := e.value;
            && t.id == s.nextID && t.owner == owner && t.code == code && t.mark == mark && t.participants == [owner]
            && |t.blob| == |payload| + 12 && t.blob[..4] == Le32(t.id) && t.blob[4..12] == mark
            && s' == Store(s.byID[t.id := t], (s.nextID + 1) % 0x1_0000_0000)
    ensures NewStore().nextID == 1000 && NewStore().byID == map[]
  {
    OnlyDigits(s, owner, payload, mark, code);
    AcceptedExactly(s, owner, payload, mark, code);
    Stamping(payload, s.nextID, mark, code);
    hide Stamp;
    hide Locate;
    hide Le32;
    hide ValidStored;
    hide Acceptable;
  }

  lemma StoredValid(s: Store, id: u32)
    requires Ok(s) && id in s.byID
    ensures ValidStored(s.byID[id])
  {
    hide ValidStored;
    assert EntryOk(s.byID[id], id);
  }

  /** A registration succeeds exactly for a stored tournament, and adds the player once. */
  lemma JoinExactly(s: Store, id: u32, pid: u64)
    requires Ok(s)
    ensures var (s', ok) := Join(s, id, pid);
            && (ok <==> id in s.byID)
            && s'.nextID == s.nextID && s'.byID.Keys == s.byID.Keys
            && (forall x :: x in s.byID && x != id ==> s'.byID[x] == s.byID[x])
            && (id in s.byID ==>
                  var t := s.byID[id];
                  s'.byID[id] == t.(participants := if pid in t.participants then t.participants
                                                    else t.participants + [pid]))
  {
    hide ValidStored;
    if id in s.byID { StoredValid(s, id); }
    hide Ok;
  }

  // ---- properties of unknown kind -----------------------------------------

  predicate EmptyCodeAt(b: bytes, j: nat) { j + 3 <= |b| && b[j] == 1 && b[j + 1] == 0 && b[j + 2] == 0 }

  /** The scan finds the first empty code from its start on, up to the very end. */
  lemma {:induction false} ScanExactly(b: bytes, i: nat)
    ensures match Scan(b, i)
            case Scanned(j) => i <= j && EmptyCodeAt(b, j) && forall k :: i <= k < j ==> !EmptyCodeAt(b, k)
            case Absent => forall k :: i <= k <= |b| ==> !EmptyCodeAt(b, k)
            case Terminated(_) => false
    decreases |b| - i
  {
    if i + 3 > |b| {
    } else {
      EmptyAt(b, i);
      if b[i..i + 3] != EMPTY_CODE { ScanExactly(b, i + 1); }
    }
  }

  lemma UnknownStops(b: bytes, at: nat)
    requires at + 2 <= |b| && b[at] != 0xFF && b[at + 1] !in {1, 2, 4}
    ensures Walk(b, at) == Scan(b, at)
  {
    hide Scan;
  }

  lemma ScanStart(head: bytes, name: bytes, ps: seq<Property>, rest: bytes)
    requires |head| == 0x69 && 2 <= |name| < 0x1_0000 && |name| % 2 == 0 && AllKnown(ps)
    requires |rest| >= 2 && rest[0] != 0xFF && rest[1] !in {1, 2, 4}
    ensures var front := KnownPart(head, name, ps); Locate(front + rest) == Scan(front + rest, |front|)
  {
    hide KnownPart;
    hide AllKnown;
    hide Locate;
    hide Walk;
    hide Scan;
    var front := KnownPart(head, name, ps);
    PastKnown(head, name, ps, rest);
    AtRest(front, rest);
    UnknownStops(front + rest, |front|);
  }

  /** At a property of unknown kind the code field is the first empty code from there on, or nowhere. */
  lemma UnknownScanned(head: bytes, name: bytes, ps: seq<Property>, rest: bytes)
    requires |head| == 0x69 && 2 <= |name| < 0x1_0000 && |name| % 2 == 0 && AllKnown(ps)
    requires |rest| >= 2 && rest[0] != 0xFF && rest[1] !in {1, 2, 4}
    ensures var at, b := |KnownPart(head, name, ps)|, KnownPart(head, name, ps) + rest;
            match Locate(b)
            case Scanned(j) => at <= j && EmptyCodeAt(b, j) && forall k :: at <= k < j ==> !EmptyCodeAt(b, k)
            case Absent => forall k :: at <= k <= |b| ==> !EmptyCodeAt(b, k)
            case Terminated(_) => false
  {
    hide KnownPart;
    hide Locate;
    hide Scan;
    hide EmptyCodeAt;
    ScanStart(head, name, ps, rest);
    ScanExactly(KnownPart(head, name, ps) + rest, |KnownPart(head, name, ps)|);
  }

  lemma AtRest(front: bytes, rest: bytes)
    requires |rest| >= 2
    ensures (front + rest)[|front|] == rest[0] && (front + rest)[|front| + 1] == rest[1]
  {
  }

  lemma FromLe16Back(b: bytes)
    requires |b| == 2
    ensures Le16(FromLe16(b)) == b
  {
  }

  lemma Cut5(b: bytes, i: nat, j: nat, k: nat, l: nat, m: nat)
    requires i <= j <= k <= l <= m <= |b|
    ensures b == b[..i] + b[i..j] + b[j..k] + b[k..l] + b[l..m] + b[m..]
  {
  }
}
