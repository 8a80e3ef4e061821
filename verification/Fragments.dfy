/** Fragmentation and reassembly of reliable payloads (sendData and processData of nextendo-nex/endpoint.go). */
module Fragments {
  import opened Bytes

  datatype Fragment = Fragment(chunk: bytes, id: u8)

  /** The configured fragment size, with the default for a non-positive setting. */
  function EffectiveSize(setting: int): (n: nat)
    ensures n > 0
  {
    if setting <= 0 then 1300 else setting
  }

  /** The fragments sent for `rest` when the next id is `id`. An id that has wrapped to zero ends the send. */
  function Split(rest: bytes, size: nat, id: u8): seq<Fragment>
    requires size > 0
    decreases |rest|
  {
    if |rest| <= size then [Fragment(rest, 0)]
    else if id == 0 then [Fragment(rest[..size], 0)]
    else [Fragment(rest[..size], id)] + Split(rest[size..], size, (id + 1) % 0x100)
  }

  function Split1(data: bytes, size: nat): seq<Fragment>
    requires size > 0
  {
    Split(data, size, 1)
  }

  /** The receiving half: the partial payload and the payloads completed so far. */
  datatype Inbound = Inbound(fragBuf: bytes, delivered: seq<bytes>)

  function Absorb(i: Inbound, f: Fragment): Inbound {
    if f.id == 0 then Inbound([], i.delivered + [i.fragBuf + f.chunk])
    else Inbound(i.fragBuf + f.chunk, i.delivered)
  }

  function AbsorbAll(i: Inbound, fs: seq<Fragment>): Inbound
    decreases |fs|
  {
    if fs == [] then i else AbsorbAll(Absorb(i, fs[0]), fs[1..])
  }

  lemma {:induction false} AbsorbAppend(i: Inbound, a: seq<Fragment>, b: seq<Fragment>)
    ensures AbsorbAll(i, a + b) == AbsorbAll(AbsorbAll(i, a), b)
    decreases |a|
  {
    if a == [] {
      assert a + b == b;
    } else {
      assert (a + b)[1..] == a[1..] + b;
      AbsorbAppend(Absorb(i, a[0]), a[1..], b);
    }
  }

  /** How many fragments can still be sent when the next id is `id`, the wrapped one included. */
  function Left(id: u8): nat { if id == 0 then 1 else 0x101 - id }

  function Min(a: nat, b: nat): nat { if a <= b then a else b }

  lemma LeftStep(id: u8, size: nat)
    requires id != 0
    ensures Left(id) * size == size + Left((id + 1) % 0x100) * size
    ensures Left(id) * size >= size
  {
    assert Left(id) == 1 + Left((id + 1) % 0x100);
  }

  /** Any send ends in exactly one delivered payload: as much of the data as the ids left allow. */
  lemma {:induction false} SplitAbsorbed(i: Inbound, rest: bytes, size: nat, id: u8)
    requires size > 0
    ensures AbsorbAll(i, Split(rest, size, id))
         == Inbound([], i.delivered + [i.fragBuf + rest[..Min(|rest|, Left(id) * size)]])
    decreases |rest|
  {
    var fs := Split(rest, size, id);
    if |rest| <= size {
      assert Left(id) * size >= size by { if id != 0 { LeftStep(id, size); } }
      assert rest[..|rest|] == rest;
    } else if id == 0 {
    } else {
      LeftStep(id, size);
      var next := (id + 1) % 0x100;
      var j := Absorb(i, fs[0]);
      assert fs[1..] == Split(rest[size..], size, next);
      SplitAbsorbed(j, rest[size..], size, next);
      var n := Min(|rest| - size, Left(next) * size);
      assert (i.fragBuf + rest[..size]) + rest[size..][..n] == i.fragBuf + rest[..size + n];
    }
  }

  /** Fragment-then-reassemble keeps the first 256 fragments' worth of the payload and nothing else. */
  lemma Reassembled(data: bytes, size: nat)
    requires size > 0
    ensures AbsorbAll(Inbound([], []), Split1(data, size)) == Inbound([], [data[..Min(|data|, 0x100 * size)]])
  {
    SplitAbsorbed(Inbound([], []), data, size, 1);
    var got := data[..Min(|data|, 0x100 * size)];
    assert [] + got == got;
  }

  /** The bound is exact: the payload arrives whole if and only if it fits 256 fragments. */
  lemma FragmentBoundExact(data: bytes, size: nat)
    requires size > 0
    ensures AbsorbAll(Inbound([], []), Split1(data, size)).delivered == [data] <==> |data| <= 0x100 * size
  {
    Reassembled(data, size);
    var got := data[..Min(|data|, 0x100 * size)];
    if |data| <= 0x100 * size {
      assert got == data;
    } else {
      assert |got| < |data|;
      assert [got][0] != [data][0];
    }
  }

  /** The bytes of `data` from `i` to `j`, where it has them. */
  predicate IsSlice(x: bytes, data: bytes, i: int, j: int) { 0 <= i <= j <= |data| && x == data[i..j] }

  /** The k-th of n fragments: a full one under the next id, or what is left under id 0. */
  predicate KthOf(f: Fragment, data: bytes, size: nat, id: u8, k: nat, n: nat) {
    if k + 1 < n then f.id == id + k && |data| > (k + 1) * size && IsSlice(f.chunk, data, k * size, (k + 1) * size)
    else f.id == 0 && |data| <= (k + 1) * size && IsSlice(f.chunk, data, k * size, |data|)
  }

  /** The fragments of a payload whose ids suffice, one by one: full ones numbered from `id` on, then the rest. */
  lemma {:induction false} SplitShape(rest: bytes, size: nat, id: u8, k: nat)
    requires size > 0 && id > 0 && |rest| <= Left(id) * size && k < |Split(rest, size, id)|
    ensures KthOf(Split(rest, size, id)[k], rest, size, id, k, |Split(rest, size, id)|)
    decreases |rest|
  {
    if |rest| <= size {
      assert rest[0..|rest|] == rest;
    } else {
      LeftStep(id, size);
      var more := rest[size..];
      if id == 0xFF {
        assert Left(0) * size == size;
        assert Split(more, size, 0) == [Fragment(more, 0)];
        assert k == 1 ==> rest[k * size..|rest|] == more;
      } else if k > 0 {
        SplitShape(more, size, id + 1, k - 1);
        Shifted(rest, size, k);
      }
    }
  }

  lemma Shifted(rest: bytes, size: nat, k: nat)
    requires 0 < k && size <= |rest|
    ensures (k - 1) * size + size == k * size && k * size + size == (k + 1) * size
    ensures k * size <= |rest| ==> rest[size..][(k - 1) * size..|rest| - size] == rest[k * size..|rest|]
    ensures (k + 1) * size <= |rest| ==> rest[size..][(k - 1) * size..k * size] == rest[k * size..(k + 1) * size]
  {
  }
}
