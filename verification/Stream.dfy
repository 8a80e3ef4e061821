/** The NEX stream primitives of nextendo-nex/stream.go.

    `StreamOut` and `StreamIn` are the two mutable streams. What a read does is
    specified by a function on `In`, the unread bytes together with the sticky
    error flag; every `StreamIn` method is proved against such a function.
 */
module Stream {
  import opened Bytes

  datatype Settings = Settings(structHeader: bool, pidSize: int)

  /** What a reader can still observe: the unread bytes and the sticky error. */
  datatype In = In(rest: bytes, failed: bool)

  // ---- reading, on values -------------------------------------------------

  /** `n` bytes, or none: an underflow of a non-empty read sets the error and moves nothing. */
  function Take(i: In, n: nat): (bytes, In) {
    if i.failed || n > |i.rest| then ([], i.(failed := i.failed || n != 0))
    else (i.rest[..n], i.(rest := i.rest[n..]))
  }

  function TakeU8(i: In): (u8, In) {
    var (b, j) := Take(i, 1);
    (if |b| < 1 then 0 else b[0], j)
  }

  function TakeU16(i: In): (u16, In) {
    var (b, j) := Take(i, 2);
    (if |b| < 2 then 0 else FromLe16(b), j)
  }

  function TakeU32(i: In): (u32, In) {
    var (b, j) := Take(i, 4);
    (if |b| < 4 then 0 else FromLe32(b), j)
  }

  function TakeU64(i: In): (u64, In) {
    var (b, j) := Take(i, 8);
    (if |b| < 8 then 0 else FromLe64(b), j)
  }

  function TakeBool(i: In): (bool, In) {
    var (v, j) := TakeU8(i);
    (v != 0, j)
  }

  function TakePid(s: Settings, i: In): (u64, In) {
    if s.pidSize == 8 then TakeU64(i) else TakeU32(i)
  }

  function TakeString(i: In): (bytes, In) {
    var (n, j) := TakeU16(i);
    if n == 0 then ([], j)
    else
      var (b, k) := Take(j, n);
      if |b| < n then ([], k)
      else if b[|b| - 1] == 0 then (b[..|b| - 1], k)
      else (b, k)
  }

  function TakeBuffer(i: In): (bytes, In) {
    var (n, j) := TakeU32(i);
    Take(j, n)
  }

  function TakeAll(i: In): (bytes, In) {
    Take(i, |i.rest|)
  }

  function TakeWords(i: In, n: nat): (seq<u32>, In)
    decreases n
  {
    if n == 0 then ([], i)
    else
      var (w, j) := TakeU32(i);
      var (ws, k) := TakeWords(j, n - 1);
      ([w] + ws, k)
  }

  function TakePids(s: Settings, i: In, n: nat): (seq<u64>, In)
    decreases n
  {
    if n == 0 then ([], i)
    else
      var (w, j) := TakePid(s, i);
      var (ws, k) := TakePids(s, j, n - 1);
      ([w] + ws, k)
  }

  /** A list of u32; a count above the number of unread bytes is an error. */
  function TakeWordList(i: In): (seq<u32>, In) {
    var (n, j) := TakeU32(i);
    if n > |j.rest| then ([], j.(failed := true)) else TakeWords(j, n)
  }

  function TakePidList(s: Settings, i: In): (seq<u64>, In) {
    var (n, j) := TakeU32(i);
    if n > |j.rest| then ([], j.(failed := true)) else TakePids(s, j, n)
  }

  // ---- writing, on values -------------------------------------------------

  function BoolBytes(v: bool): bytes { [if v then 1 else 0] }

  function PidBytes(s: Settings, v: u64): bytes {
    if s.pidSize == 8 then Le64(v) else Le32(v % 0x1_0000_0000)
  }

  function StringBytes(v: bytes): bytes { Le16((|v| + 1) % 0x1_0000) + (v + [0]) }

  function BufferBytes(v: bytes): bytes { Le32(|v| % 0x1_0000_0000) + v }

  function WordsBytes(ws: seq<u32>): bytes {
    if ws == [] then [] else Le32(ws[0]) + WordsBytes(ws[1..])
  }

  function WordListBytes(ws: seq<u32>): bytes { Le32(|ws| % 0x1_0000_0000) + WordsBytes(ws) }

  predicate PidFits(s: Settings, v: u64) { s.pidSize == 8 || v < 0x1_0000_0000 }

  // ---- each read undoes its write -----------------------------------------

  lemma TakeSplit(b: bytes, tail: bytes)
    ensures Take(In(b + tail, false), |b|) == (b, In(tail, false))
  {
    assert (b + tail)[..|b|] == b && (b + tail)[|b|..] == tail;
  }

  lemma U8Back(v: u8, tail: bytes)
    ensures TakeU8(In([v] + tail, false)) == (v, In(tail, false))
  {
    TakeSplit([v], tail);
  }

  lemma U16Back(v: u16, tail: bytes)
    ensures TakeU16(In(Le16(v) + tail, false)) == (v, In(tail, false))
  {
    TakeSplit(Le16(v), tail);
    Le16RoundTrip(v);
  }

  lemma U32Back(v: u32, tail: bytes)
    ensures TakeU32(In(Le32(v) + tail, false)) == (v, In(tail, false))
  {
    TakeSplit(Le32(v), tail);
    Le32RoundTrip(v);
  }

  lemma U64Back(v: u64, tail: bytes)
    ensures TakeU64(In(Le64(v) + tail, false)) == (v, In(tail, false))
  {
    TakeSplit(Le64(v), tail);
    Le64RoundTrip(v);
  }

  lemma BoolBack(v: bool, tail: bytes)
    ensures TakeBool(In(BoolBytes(v) + tail, false)) == (v, In(tail, false))
  {
    U8Back(if v then 1 else 0, tail);
  }

  lemma PidBack(s: Settings, v: u64, tail: bytes)
    requires PidFits(s, v)
    ensures TakePid(s, In(PidBytes(s, v) + tail, false)) == (v, In(tail, false))
  {
    if s.pidSize == 8 { U64Back(v, tail); } else { U32Back(v, tail); }
  }

  /** A string whose length and terminator fit a u16 reads back, whatever bytes it holds. */
  lemma StringBack(v: bytes, tail: bytes)
    requires |v| + 1 < 0x1_0000
    ensures TakeString(In(StringBytes(v) + tail, false)) == (v, In(tail, false))
  {
    hide Le16;
    hide TakeU16;
    var body := v + [0];
    Assoc(Le16(|body|), body, tail);
    U16Back(|body|, body + tail);
    TakeSplit(body, tail);
    hide Take;
    assert body[..|body| - 1] == v;
  }

  /** No longer string does. */
  lemma StringBackExactly(v: bytes, tail: bytes)
    ensures TakeString(In(StringBytes(v) + tail, false)) == (v, In(tail, false)) <==> |v| + 1 < 0x1_0000
  {
    if |v| + 1 < 0x1_0000 {
      StringBack(v, tail);
    } else {
      var n: u16 := (|v| + 1) % 0x1_0000;
      Assoc(Le16(n), v + [0], tail);
      U16Back(n, v + [0] + tail);
      hide TakeU16;
      hide Le16;
      assert |TakeString(In(StringBytes(v) + tail, false)).0| <= n;
    }
  }

  lemma BufferBack(v: bytes, tail: bytes)
    requires |v| < 0x1_0000_0000
    ensures TakeBuffer(In(BufferBytes(v) + tail, false)) == (v, In(tail, false))
  {
    var n: u32 := |v|;
    assert BufferBytes(v) + tail == Le32(n) + (v + tail) by { Assoc(Le32(n), v, tail); }
    U32Back(n, v + tail);
    TakeSplit(v, tail);
  }

  lemma {:induction false} WordsLength(ws: seq<u32>)
    ensures |WordsBytes(ws)| == 4 * |ws|
  {
    if ws == [] {
    } else {
      WordsLength(ws[1..]);
    }
  }

  lemma {:induction false} WordsBack(ws: seq<u32>, tail: bytes)
    ensures TakeWords(In(WordsBytes(ws) + tail, false), |ws|) == (ws, In(tail, false))
  {
    if ws == [] {
      assert [] + tail == tail;
    } else {
      Assoc(Le32(ws[0]), WordsBytes(ws[1..]), tail);
      U32Back(ws[0], WordsBytes(ws[1..]) + tail);
      WordsBack(ws[1..], tail);
      assert ws == [ws[0]] + ws[1..];
    }
  }

  lemma WordListBack(ws: seq<u32>, tail: bytes)
    requires |ws| < 0x1_0000_0000
    ensures TakeWordList(In(WordListBytes(ws) + tail, false)) == (ws, In(tail, false))
  {
    hide Le32;
    hide TakeU32;
    hide TakeWords;
    hide WordsBytes;
    var body := WordsBytes(ws) + tail;
    assert WordListBytes(ws) + tail == Le32(|ws|) + body by { Assoc(Le32(|ws|), WordsBytes(ws), tail); }
    assert TakeU32(In(Le32(|ws|) + body, false)) == (|ws|, In(body, false)) by { U32Back(|ws|, body); }
    assert |ws| <= |body| by { WordsLength(ws); }
    WordsBack(ws, tail);
  }

  // ---- the mutable streams ------------------------------------------------

  lemma WordsNext(ws: seq<u32>, i: In, n: nat)
    requires n > 0
    ensures var (w, j) := TakeU32(i);
            && ws + TakeWords(i, n).0 == (ws + [w]) + TakeWords(j, n - 1).0
            && TakeWords(i, n).1 == TakeWords(j, n - 1).1
  {
    hide TakeU32;
  }

  lemma PidsNext(s: Settings, ws: seq<u64>, i: In, n: nat)
    requires n > 0
    ensures var (w, j) := TakePid(s, i);
            && ws + TakePids(s, i, n).0 == (ws + [w]) + TakePids(s, j, n - 1).0
            && TakePids(s, i, n).1 == TakePids(s, j, n - 1).1
  {
    hide TakePid;
  }

  class StreamOut {
    const settings: Settings
    var buf: bytes

    constructor (s: Settings)
      ensures settings == s && buf == []
    {
      settings := s;
      buf := [];
    }

    method Write(b: bytes)
      modifies this
      ensures buf == old(buf) + b
    {
      buf := buf + b;
    }

    method U8(v: u8)
      modifies this
      ensures buf == old(buf) + [v]
    {
      buf := buf + [v];
    }

    method U16(v: u16)
      modifies this
      ensures buf == old(buf) + Le16(v)
    {
      buf := buf + Le16(v);
    }

    method U32(v: u32)
      modifies this
      ensures buf == old(buf) + Le32(v)
    {
      buf := buf + Le32(v);
    }

    method U64(v: u64)
      modifies this
      ensures buf == old(buf) + Le64(v)
    {
      buf := buf + Le64(v);
    }

    method Bool(v: bool)
      modifies this
      ensures buf == old(buf) + BoolBytes(v)
    {
      if v { U8(1); } else { U8(0); }
    }

    method Pid(v: u64)
      modifies this
      ensures buf == old(buf) + PidBytes(settings, v)
    {
      if settings.pidSize == 8 { U64(v); } else { U32(v % 0x1_0000_0000); }
    }

    method String(v: bytes)
      modifies this
      ensures buf == old(buf) + StringBytes(v)
    {
      var data := v + [0];
      U16(|data| % 0x1_0000);
      Write(data);
      Assoc(old(buf), Le16(|data| % 0x1_0000), data);
    }

    method Buffer(v: bytes)
      modifies this
      ensures buf == old(buf) + BufferBytes(v)
    {
      U32(|v| % 0x1_0000_0000);
      Write(v);
      Assoc(old(buf), Le32(|v| % 0x1_0000_0000), v);
    }

    method WordList(ws: seq<u32>)
      modifies this
      ensures buf == old(buf) + WordListBytes(ws)
    {
      U32(|ws| % 0x1_0000_0000);
      for i := 0 to |ws|
        invariant buf + WordsBytes(ws[i..]) == old(buf) + WordListBytes(ws)
      {
        var before := buf;
        U32(ws[i]);
        assert ws[i..][1..] == ws[i + 1..];
        Assoc(before, Le32(ws[i]), WordsBytes(ws[i + 1..]));
      }
      assert buf + [] == buf;
    }
  }

  class StreamIn {
    const settings: Settings
    const data: bytes
    var pos: nat
    var failed: bool

    constructor (b: bytes, s: Settings)
      ensures settings == s && data == b && Valid() && View() == In(b, false)
    {
      settings, data, pos, failed := s, b, 0, false;
    }

    ghost predicate Valid()
      reads this
    {
      pos <= |data|
    }

    ghost function View(): In
      requires Valid()
      reads this
    {
      In(data[pos..], failed)
    }

    method Remaining() returns (n: nat)
      requires Valid()
      ensures n == |View().rest|
    {
      n := |data| - pos;
    }

    method Read(n: nat) returns (b: bytes)
      requires Valid()
      modifies this
      ensures Valid() && (b, View()) == Take(old(View()), n)
    {
      if failed || pos + n > |data| {
        if !failed && n != 0 { failed := true; }
        return [];
      }
      b := data[pos..pos + n];
      assert data[pos..][..n] == b && data[pos..][n..] == data[pos + n..];
      pos := pos + n;
    }

    method U8() returns (v: u8)
      requires Valid()
      modifies this
      ensures Valid() && (v, View()) == TakeU8(old(View()))
    {
      var b := Read(1);
      if |b| < 1 { return 0; }
      v := b[0];
    }

    method U16() returns (v: u16)
      requires Valid()
      modifies this
      ensures Valid() && (v, View()) == TakeU16(old(View()))
    {
      var b := Read(2);
      if |b| < 2 { return 0; }
      v := FromLe16(b);
    }

    method U32() returns (v: u32)
      requires Valid()
      modifies this
      ensures Valid() && (v, View()) == TakeU32(old(View()))
    {
      var b := Read(4);
      if |b| < 4 { return 0; }
      v := FromLe32(b);
    }

    method U64() returns (v: u64)
      requires Valid()
      modifies this
      ensures Valid() && (v, View()) == TakeU64(old(View()))
    {
      var b := Read(8);
      if |b| < 8 { return 0; }
      v := FromLe64(b);
    }

    method Bool() returns (v: bool)
      requires Valid()
      modifies this
      ensures Valid() && (v, View()) == TakeBool(old(View()))
    {
      var b := U8();
      v := b != 0;
    }

    method Pid() returns (v: u64)
      requires Valid()
      modifies this
      ensures Valid() && (v, View()) == TakePid(settings, old(View()))
    {
      if settings.pidSize == 8 { v := U64(); } else { v := U32(); }
    }

    method String() returns (v: bytes)
      requires Valid()
      modifies this
      ensures Valid() && (v, View()) == TakeString(old(View()))
    {
      var n := U16();
      if n == 0 { return []; }
      var b := Read(n);
      if |b| < n { return []; }
      if b[|b| - 1] == 0 { return b[..|b| - 1]; }
      v := b;
    }

    method Buffer() returns (v: bytes)
      requires Valid()
      modifies this
      ensures Valid() && (v, View()) == TakeBuffer(old(View()))
    {
      var n := U32();
      v := Read(n);
    }

    method ReadAll() returns (v: bytes)
      requires Valid()
      modifies this
      ensures Valid() && (v, View()) == TakeAll(old(View()))
    {
      var n := Remaining();
      v := Read(n);
    }

    method WordList() returns (ws: seq<u32>)
      requires Valid()
      modifies this
      ensures Valid() && (ws, View()) == TakeWordList(old(View()))
    {
      var n := U32();
      var left := Remaining();
      if n > left {
        failed := true;
        return [];
      }
      hide TakeU32;
      ghost var all := TakeWords(View(), n);
      ws := [];
      assert ws + all.0 == all.0;
      for i := 0 to n
        invariant Valid()
        invariant (ws + TakeWords(View(), n - i).0, TakeWords(View(), n - i).1) == all
      {
        WordsNext(ws, View(), n - i);
        var w := U32();
        hide TakeWords;
        ws := ws + [w];
      }
      assert ws + [] == ws;
    }

    method PidList() returns (ws: seq<u64>)
      requires Valid()
      modifies this
      ensures Valid() && (ws, View()) == TakePidList(settings, old(View()))
    {
      var n := U32();
      var left := Remaining();
      if n > left {
        failed := true;
        return [];
      }
      hide TakePid;
      ghost var all := TakePids(settings, View(), n);
      ws := [];
      assert ws + all.0 == all.0;
      for i := 0 to n
        invariant Valid()
        invariant (ws + TakePids(settings, View(), n - i).0, TakePids(settings, View(), n - i).1) == all
      {
        PidsNext(settings, ws, View(), n - i);
        var w := Pid();
        hide TakePids;
        ws := ws + [w];
      }
      assert ws + [] == ws;
    }
  }
}
