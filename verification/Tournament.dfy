/** Player-made tournaments (nextendo-nex/tournament.go): where the code field of an opaque payload lies and
    how the server stamps it. Random marks and codes are inputs. */
module Tournament {
  import opened Bytes

  const CODE_LEN: nat := 12
  const MAX_BLOB: nat := 4096
  const MAX_TOURNAMENTS: nat := 2000
  const NAME_LENGTH: nat := 0x69
  const EMPTY_CODE: bytes := [1, 0, 0]

  // ---- finding the code field ---------------------------------------------

  /** Behind the property list's terminator, found by scanning from a property of unknown type, or nowhere. */
  datatype Found = Terminated(at: nat) | Scanned(at: nat) | Absent

  function Scan(b: bytes, i: nat): Found
    decreases |b| - i
  {
    if i + 3 > |b| then Absent
    else if b[i..i + 3] == EMPTY_CODE then Scanned(i)
    else Scan(b, i + 1)
  }

  function PropertySize(kind: u8): nat {
    if kind == 0x01 then 4 else if kind == 0x02 then 5 else if kind == 0x04 then 7 else 0
  }

  function Walk(b: bytes, pos: nat): Found
    decreases |b| - pos
  {
    if pos >= |b| then Absent
    else if b[pos] == 0xFF then (if pos + 8 <= |b| then Terminated(pos + 5) else Absent)
    else if pos + 2 > |b| then Absent
    else if PropertySize(b[pos + 1]) == 0 then Scan(b, pos)
    else Walk(b, pos + PropertySize(b[pos + 1]))
  }

  function NameEnd(b: bytes): Option<nat> {
    if |b| < NAME_LENGTH + 2 then None
    else
      var n := FromLe16(b[NAME_LENGTH..NAME_LENGTH + 2]);
      if n < 2 || n % 2 != 0 || NAME_LENGTH + 2 + n >= |b| then None else Some(NAME_LENGTH + 2 + n)
  }

  function Locate(b: bytes): Found {
    match NameEnd(b) case None => Absent case Some(pos) => Walk(b, pos)
  }

  /** The offset the source returns, -1 for none. */
  function OffsetOf(f: Found): int { if f.Absent? then -1 else f.at }

  lemma EmptyAt(b: bytes, j: nat)
    requires j + 3 <= |b|
    ensures b[j..j + 3] == EMPTY_CODE <==> b[j] == 1 && b[j + 1] == 0 && b[j + 2] == 0
  {
    var cut := b[j..j + 3];
    assert cut[0] == b[j] && cut[1] == b[j + 1] && cut[2] == b[j + 2];
  }

  method ScanOffset(b: bytes, pos: nat) returns (i: int)
    ensures i == OffsetOf(Scan(b, pos))
  {
    var j := pos;
    while j + 3 <= |b|
      invariant Scan(b, j) == Scan(b, pos)
    {
      EmptyAt(b, j);
      if b[j] == 1 && b[j + 1] == 0 && b[j + 2] == 0 { return j; }
      j := j + 1;
    }
    return -1;
  }

  method CodeOffset(b: bytes) returns (i: int)
    ensures i == OffsetOf(Locate(b))
  {
    hide Scan;
    hide FromLe16;
    if |b| < NAME_LENGTH + 2 { return -1; }
    var nameLen := FromLe16(b[NAME_LENGTH..NAME_LENGTH + 2]);
    if nameLen < 2 || nameLen % 2 != 0 { return -1; }
    var pos := NAME_LENGTH + 2 + nameLen;
    if pos >= |b| { return -1; }
    while pos < |b|
      invariant Locate(b) == Walk(b, pos)
    {
      if b[pos] == 0xFF {
        return if pos + 5 + 3 <= |b| then pos + 5 else -1;
      }
      if pos + 2 > |b| { return -1; }
      var kind := b[pos + 1];
      if kind == 0x01 { pos := pos + 4; }
      else if kind == 0x02 { pos := pos + 5; }
      else if kind == 0x04 { pos := pos + 7; }
      else {
        i := ScanOffset(b, pos);
        return;
      }
    }
    return -1;
  }

  lemma {:induction false} ScanFinds(b: bytes, i: nat)
    ensures var f := Scan(b, i);
            && !f.Terminated?
            && (f.Scanned? ==> i <= f.at && f.at + 3 <= |b| && b[f.at..f.at + 3] == EMPTY_CODE)
    decreases |b| - i
  {
    if i + 3 <= |b| && b[i..i + 3] != EMPTY_CODE { ScanFinds(b, i + 1); }
  }

  lemma {:induction false} WalkBounds(b: bytes, pos: nat)
    ensures var f := Walk(b, pos);
            && (!f.Absent? ==> pos <= f.at && f.at + 3 <= |b|)
            && (f.Terminated? ==> pos + 5 <= f.at)
            && (f.Scanned? ==> b[f.at..f.at + 3] == EMPTY_CODE)
    decreases |b| - pos
  {
    if pos + 2 <= |b| && b[pos] != 0xFF {
      var n := PropertySize(b[pos + 1]);
      if n == 0 { ScanFinds(b, pos); } else { WalkBounds(b, pos + n); }
    }
  }

  lemma LocateBounds(b: bytes)
    ensures var f := Locate(b); !f.Absent? ==> NAME_LENGTH + 2 <= f.at && f.at + 3 <= |b|
  {
    if NameEnd(b).Some? { WalkBounds(b, NameEnd(b).value); }
  }

  // ---- the stamp ----------------------------------------------------------

  predicate Digits(code: bytes) { |code| == CODE_LEN && forall i :: 0 <= i < |code| ==> 0x30 <= code[i] <= 0x39 }

  method ValidCode(code: bytes) returns (ok: bool)
    ensures ok <==> Digits(code)
  {
    if |code| != CODE_LEN { return false; }
    for i := 0 to |code|
      invariant forall j :: 0 <= j < i ==> 0x30 <= code[j] <= 0x39
    {
      if code[i] < 0x30 || code[i] > 0x39 { return false; }
    }
    return true;
  }

  function CodeField(code: bytes): bytes { Le16((|code| + 1) % 0x1_0000) + code + [0] }

  function Header(payload: bytes, id: u32, mark: bytes): bytes
    requires |payload| >= 12 && |mark| == 8
  {
    Le32(id) + mark + payload[12..]
  }

  function Splice(b: bytes, i: nat, field: bytes): bytes
    requires i + 3 <= |b|
  {
    b[..i] + field + b[i + 3..]
  }

  function Stamp(payload: bytes, id: u32, mark: bytes, code: bytes): bytes
    requires |mark| == 8
  {
    if |payload| < 12 then payload
    else
      var out := Header(payload, id, mark);
      var f := Locate(out);
      LocateBounds(out);
      if f.Absent? || !Digits(code) || out[f.at..f.at + 3] != EMPTY_CODE then out
      else Splice(out, f.at, CodeField(code))
  }

  /** The payload carries exactly this code at the place where the walk finds it. */
  predicate CodeMatches(b: bytes, code: bytes) {
    var f := Locate(b);
    LocateBounds(b);
    if f.Absent? || !Digits(code) then false
    else
      var n := FromLe16(b[f.at..f.at + 2]);
      if n != CODE_LEN + 1 || f.at + 2 + n > |b| then false
      else b[f.at + 1 + n] == 0 && b[f.at + 2..f.at + 2 + CODE_LEN] == code
  }

  // ---- what stamping keeps ------------------------------------------------

  /** The walk reads nothing before its position. */
  lemma {:induction false} ScanSame(b: bytes, b': bytes, i: nat)
    requires |b| == |b'| && |b| >= 12 && i >= 12 && b[12..] == b'[12..]
    ensures Scan(b, i) == Scan(b', i)
    decreases |b| - i
  {
    if i + 3 <= |b| {
      Beyond(b, b', i, i + 3);
      ScanSame(b, b', i + 1);
    }
  }

  lemma Beyond(b: bytes, b': bytes, i: nat, j: nat)
    requires |b| == |b'| && 12 <= i <= j <= |b| && b[12..] == b'[12..]
    ensures b[i..j] == b'[i..j]
  {
    forall k | i <= k < j ensures b[k] == b'[k] {
      assert b[k] == b[12..][k - 12] && b'[k] == b'[12..][k - 12];
    }
  }

  lemma At(b: bytes, b': bytes, i: nat)
    requires |b| == |b'| && 12 <= i < |b| && b[12..] == b'[12..]
    ensures b[i] == b'[i]
  {
    assert b[i] == b[12..][i - 12];
    assert b'[i] == b'[12..][i - 12];
  }

  lemma {:induction false} WalkSame(b: bytes, b': bytes, pos: nat)
    requires |b| == |b'| && |b| >= 12 && pos >= 12 && b[12..] == b'[12..]
    ensures Walk(b, pos) == Walk(b', pos)
    decreases |b| - pos
  {
    if pos < |b| {
      At(b, b', pos);
      if pos + 2 <= |b| {
        At(b, b', pos + 1);
        var n := PropertySize(b[pos + 1]);
        if n == 0 { ScanSame(b, b', pos); } else { WalkSame(b, b', pos + n); }
      }
    }
  }

  lemma HeaderKeeps(payload: bytes, id: u32, mark: bytes)
    requires |payload| >= 12 && |mark| == 8
    ensures var out := Header(payload, id, mark); |out| == |payload| && out[12..] == payload[12..]
    ensures Locate(Header(payload, id, mark)) == Locate(payload)
  {
    var out := Header(payload, id, mark);
    assert out[12..] == payload[12..];
    if |out| >= NAME_LENGTH + 2 {
      Beyond(out, payload, NAME_LENGTH, NAME_LENGTH + 2);
      if NameEnd(out).Some? { WalkSame(out, payload, NameEnd(out).value); }
    }
  }

  lemma Spliced(b: bytes, i: nat, field: bytes)
    requires i + 3 <= |b| && |field| >= 3
    ensures var r := Splice(b, i, field);
            && |r| == |b| + |field| - 3
            && (forall j :: 0 <= j < i ==> r[j] == b[j])
            && r[..i] == b[..i] && r[i..i + |field|] == field && r[i + |field|..] == b[i + 3..]
            && r[i] == field[0] && r[i + 1] == field[1]
  {
  }

  /** A walk that ended behind the terminator ends there again. */
  lemma {:induction false} TerminatedStays(b: bytes, pos: nat, i: nat, field: bytes)
    requires Walk(b, pos) == Terminated(i) && |field| >= 3 && i + 3 <= |b|
    ensures Walk(Splice(b, i, field), pos) == Terminated(i)
    decreases |b| - pos
  {
    hide Splice;
    Spliced(b, i, field);
    WalkBounds(b, pos);
    if b[pos] != 0xFF {
      ScanFinds(b, pos);
      var n := PropertySize(b[pos + 1]);
      WalkBounds(b, pos + n);
      TerminatedStays(b, pos + n, i, field);
    }
  }

  /** A walk that gave up on an unknown property gives up again: nothing stamped makes it terminate. */
  lemma {:induction false} ScannedStays(b: bytes, pos: nat, i: nat, field: bytes)
    requires Walk(b, pos) == Scanned(i) && i + 3 <= |b|
    requires |field| >= 3 && field[0] != 0xFF && PropertySize(field[1]) == 0
    ensures !Walk(Splice(b, i, field), pos).Terminated?
    decreases |b| - pos
  {
    hide Splice;
    Spliced(b, i, field);
    WalkBounds(b, pos);
    var r := Splice(b, i, field);
    var n := PropertySize(b[pos + 1]);
    if n == 0 {
      ScanFinds(b, pos);
      assert b[i] == b[i..i + 3][0] == EMPTY_CODE[0];
      assert i != pos + 1;
      assert PropertySize(r[pos + 1]) == 0;
      ScanFinds(r, pos);
    } else {
      WalkBounds(b, pos + n);
      ScannedStays(b, pos + n, i, field);
    }
  }

  lemma NameKept(b: bytes, i: nat, field: bytes)
    requires i + 3 <= |b| && |field| >= 3 && NAME_LENGTH + 2 <= i
    ensures NameEnd(b).Some? ==> NameEnd(Splice(b, i, field)) == NameEnd(b)
  {
    var r := Splice(b, i, field);
    assert r[NAME_LENGTH..NAME_LENGTH + 2] == b[NAME_LENGTH..NAME_LENGTH + 2];
  }

  /** Payloads the server can stamp: the walk reaches the terminator, with an empty code behind it. */
  predicate Stampable(b: bytes) {
    Locate(b).Terminated? && (LocateBounds(b); b[Locate(b).at..Locate(b).at + 3] == EMPTY_CODE)
  }

  lemma HeaderParts(payload: bytes, id: u32, mark: bytes)
    requires |payload| >= 12 && |mark| == 8
    ensures var out := Header(payload, id, mark);
            |out| == |payload| && out[..4] == Le32(id) && out[4..12] == mark && out[12..] == payload[12..]
  {
    hide Le32;
    assert |Le32(id)| == 4;
  }

  lemma CommonPrefix(r: bytes, out: bytes, i: nat)
    requires 12 <= i <= |r| && i <= |out| && r[..i] == out[..i]
    ensures r[..4] == out[..4] && r[4..12] == out[4..12] && r[12..i] == out[12..i]
  {
    assert r[..4] == r[..i][..4] && out[..4] == out[..i][..4];
    assert r[4..12] == r[..i][4..12] && out[4..12] == out[..i][4..12];
    assert r[12..i] == r[..i][12..i] && out[12..i] == out[..i][12..i];
  }

  /** Where the stamp of a stampable payload lands. */
  lemma StampIsSplice(payload: bytes, id: u32, mark: bytes, code: bytes)
    requires Stampable(payload) && |mark| == 8 && Digits(code)
    ensures var i := Locate(payload).at;
            var out := Header(payload, id, mark);
            && 12 <= i && i + 3 <= |payload| && |out| == |payload| && out[12..] == payload[12..]
            && Stamp(payload, id, mark, code) == Splice(out, i, CodeField(code))
            && Locate(out) == Locate(payload)
  {
    hide Walk;
    hide NameEnd;
    hide CodeField;
    LocateBounds(payload);
    HeaderKeeps(payload, id, mark);
    hide Locate;
    var i := Locate(payload).at;
    var out := Header(payload, id, mark);
    Beyond(out, payload, i, i + 3);
    hide Header;
    hide Splice;
  }

  lemma PlaceKept(out: bytes, code: bytes)
    requires Locate(out).Terminated? && |code| == CODE_LEN
    ensures var i := Locate(out).at; i + 3 <= |out| && Locate(Splice(out, i, CodeField(code))) == Locate(out)
  {
    hide Walk;
    LocateBounds(out);
    var i := Locate(out).at;
    NameKept(out, i, CodeField(code));
    TerminatedStays(out, NameEnd(out).value, i, CodeField(code));
  }

  /** Stamping a stampable payload keeps the place of the code, writes id, mark and code, and
      preserves every other byte. */
  lemma Stamping(payload: bytes, id: u32, mark: bytes, code: bytes)
    requires Stampable(payload) && |mark| == 8 && Digits(code)
    ensures var i := Locate(payload).at;
            var r := Stamp(payload, id, mark, code);
            && Locate(r) == Locate(payload)
            && 12 <= i && i + 15 <= |r| && |r| == |payload| + 12 && i + 3 <= |payload|
            && r[..4] == Le32(id) && r[4..12] == mark
            && r[12..i] == payload[12..i]
            && r[i..i + 15] == CodeField(code)
            && r[i + 15..] == payload[i + 3..]
  {
    hide Le32;
    StampIsSplice(payload, id, mark, code);
    hide Stamp;
    var i := Locate(payload).at;
    var out := Header(payload, id, mark);
    PlaceKept(out, code);
    HeaderParts(payload, id, mark);
    hide Locate;
    hide Header;
    assert |CodeField(code)| == 15;
    hide CodeField;
    hide Digits;
    Spliced(out, i, CodeField(code));
    hide Splice;
    CommonPrefix(Stamp(payload, id, mark, code), out, i);
    Beyond(out, payload, 12, i);
    Beyond(out, payload, i + 3, |payload|);
  }

  lemma Inner(r: bytes, i: nat, j: nat, k: nat, l: nat)
    requires i <= j <= |r| && k <= l <= j - i
    ensures r[i..j][k..l] == r[i + k..i + l]
  {
    assert forall m :: 0 <= m < l - k ==> r[i..j][k..l][m] == r[i + k..i + l][m];
  }

  lemma FieldParts(r: bytes, i: nat, code: bytes)
    requires |code| == CODE_LEN && i + 15 <= |r| && r[i..i + 15] == CodeField(code)
    ensures FromLe16(r[i..i + 2]) == 13 && r[i + 2..i + 14] == code && r[i + 14] == 0
  {
    Le16RoundTrip(13);
    hide FromLe16;
    hide Le16;
    var field := CodeField(code);
    Inner(r, i, i + 15, 0, 2);
    Inner(r, i, i + 15, 2, 14);
    assert field[..2] == Le16(13) && field[2..14] == code && field[14] == 0;
    assert r[i + 14] == r[i..i + 15][14];
  }

  /** A stamped payload carries the code it was stamped with and no other. */
  lemma CodeReadsBack(payload: bytes, id: u32, mark: bytes, code: bytes, other: bytes)
    requires Stampable(payload) && |mark| == 8 && Digits(code)
    ensures CodeMatches(Stamp(payload, id, mark, code), other) <==> other == code
  {
    hide Locate;
    hide FromLe16;
    Stamping(payload, id, mark, code);
    hide Stamp;
    FieldParts(Stamp(payload, id, mark, code), Locate(payload).at, code);
    hide CodeField;
  }

  lemma ScanKept(out: bytes, code: bytes)
    requires Locate(out).Scanned? && |code| == CODE_LEN
    ensures var i := Locate(out).at; i + 3 <= |out| && !Locate(Splice(out, i, CodeField(code))).Terminated?
  {
    hide Walk;
    LocateBounds(out);
    var i := Locate(out).at;
    var field := CodeField(code);
    assert field[0] == 13 && field[1] == 0 && |field| == 15;
    hide CodeField;
    NameKept(out, i, field);
    ScannedStays(out, NameEnd(out).value, i, field);
  }

  /** A code found by the scan is the empty one, so it matches no code. */
  lemma EmptyMatchesNone(r: bytes, other: bytes)
    requires !Locate(r).Terminated?
    ensures !CodeMatches(r, other)
  {
    hide Walk;
    LocateBounds(r);
    if Locate(r).Scanned? {
      WalkBounds(r, NameEnd(r).value);
      var j := Locate(r).at;
      Inner(r, j, j + 3, 0, 2);
      assert r[j..j + 2] == [1, 0];
    }
  }

  /** No payload whose code was found by the fallback scan carries a code after stamping. */
  lemma ScannedNeverMatches(payload: bytes, id: u32, mark: bytes, code: bytes, other: bytes)
    requires Locate(payload).Scanned? && |mark| == 8 && Digits(code)
    ensures !CodeMatches(Stamp(payload, id, mark, code), other)
  {
    hide CodeMatches;
    hide CodeField;
    hide Splice;
    LocateBounds(payload);
    HeaderKeeps(payload, id, mark);
    hide Locate;
    var out := Header(payload, id, mark);
    ScanKept(out, code);
    EmptyMatchesNone(Stamp(payload, id, mark, code), other);
  }
}
