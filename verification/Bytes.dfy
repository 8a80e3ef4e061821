/** Fixed-width unsigned integers and their little-endian byte forms. */
module Bytes {

  type u8 = x: int | 0 <= x < 0x100
  type u16 = x: int | 0 <= x < 0x1_0000
  type u32 = x: int | 0 <= x < 0x1_0000_0000
  type u64 = x: int | 0 <= x < 0x1_0000_0000_0000_0000

  type bytes = seq<u8>

  datatype Option<T> = None | Some(value: T)

  function Le16(v: u16): (b: bytes)
    ensures |b| == 2
  {
    [v % 0x100, v / 0x100]
  }

  function Le32(v: u32): (b: bytes)
    ensures |b| == 4
  {
    Le16(v % 0x1_0000) + Le16(v / 0x1_0000)
  }

  function Le64(v: u64): (b: bytes)
    ensures |b| == 8
  {
    Le32(v % 0x1_0000_0000) + Le32(v / 0x1_0000_0000)
  }

  function FromLe16(b: bytes): u16
    requires |b| == 2
  {
    b[0] as int + 0x100 * (b[1] as int)
  }

  function FromLe32(b: bytes): u32
    requires |b| == 4
  {
    FromLe16(b[..2]) + 0x1_0000 * FromLe16(b[2..])
  }

  function FromLe64(b: bytes): u64
    requires |b| == 8
  {
    FromLe32(b[..4]) + 0x1_0000_0000 * FromLe32(b[4..])
  }

  lemma Le16RoundTrip(v: u16)
    ensures FromLe16(Le16(v)) == v
  {
  }

  lemma Le32RoundTrip(v: u32)
    ensures FromLe32(Le32(v)) == v
  {
    var lo, hi := v % 0x1_0000, v / 0x1_0000;
    assert Le32(v)[..2] == Le16(lo) && Le32(v)[2..] == Le16(hi);
    Le16RoundTrip(lo);
    Le16RoundTrip(hi);
  }

  lemma Le64RoundTrip(v: u64)
    ensures FromLe64(Le64(v)) == v
  {
    var lo, hi := v % 0x1_0000_0000, v / 0x1_0000_0000;
    assert Le64(v)[..4] == Le32(lo) && Le64(v)[4..] == Le32(hi);
    Le32RoundTrip(lo);
    Le32RoundTrip(hi);
  }

  /** Whether `v` has the bit of weight `weight` set; `weight` is a power of two. */
  predicate HasBit(v: nat, weight: nat)
    requires weight > 0
  {
    v / weight % 2 == 1
  }

  /** Concatenation of a sequence of byte strings. */
  function Flatten(parts: seq<bytes>): bytes {
    if parts == [] then [] else parts[0] + Flatten(parts[1..])
  }

  /** The bytes from `at` on are those of `x`. */
  predicate Has(b: bytes, at: nat, x: bytes) { at + |x| <= |b| && b[at..at + |x|] == x }

  lemma First(x: bytes, tail: bytes)
    ensures Has(x + tail, 0, x)
  {
  }

  lemma Behind(front: bytes, b: bytes, at: nat, x: bytes)
    requires Has(b, at, x)
    ensures Has(front + b, |front| + at, x)
  {
    assert (front + b)[|front| + at..|front| + at + |x|] == b[at..at + |x|];
  }

  /** Parts laid out one behind the other: each starts where those before it end. */
  lemma {:induction false} PartAt(parts: seq<bytes>, k: nat)
    requires k < |parts|
    ensures Has(Flatten(parts), |Flatten(parts[..k])|, parts[k])
    ensures |Flatten(parts[..k + 1])| == |Flatten(parts[..k])| + |parts[k]|
    decreases |parts|
  {
    var more := Flatten(parts[1..]);
    if k == 0 {
      First(parts[0], more);
      var one := parts[..1];
      assert parts[..0] == [] && one[0] == parts[0] && one[1..] == [];
    } else {
      PartAt(parts[1..], k - 1);
      assert parts[1..][..k - 1] == parts[..k][1..] && parts[1..][..k] == parts[..k + 1][1..];
      Behind(parts[0], more, |Flatten(parts[1..][..k - 1])|, parts[k]);
    }
  }

  lemma Slices(a: bytes, b: bytes, c: bytes, d: bytes)
    ensures var w := a + (b + c) + d;
            && w[..|a|] == a && w[|a|..|a| + |b|] == b && w[|a| + |b|..|a| + |b| + |c|] == c
  {
  }

  lemma Nest3(h: bytes, a: bytes, b: bytes, c: bytes)
    ensures h + a + b + c == h + (a + (b + c))
  {
  }

  lemma Nest4(h: bytes, a: bytes, b: bytes, c: bytes, d: bytes)
    ensures h + a + b + c + d == h + (a + (b + (c + d)))
  {
    Nest3(h + a, b, c, d);
    Assoc(h, a, b + (c + d));
  }

  lemma Assoc(a: bytes, b: bytes, c: bytes)
    ensures (a + b) + c == a + (b + c)
  {
  }
}
