/** Station URL objects (nextendo-nex/types.go) and the decimal numbers of their integer parameters. */
module Stations {
  import opened Bytes
  import opened StationUrl

  // ---- decimal numbers ----------------------------------------------------

  function DigitChar(d: nat): char
    requires d < 10
  {
    ('0' as int + d) as char
  }

  predicate IsDigit(c: char) { '0' <= c <= '9' }

  function DigitValue(c: char): (d: nat)
    requires IsDigit(c)
    ensures d < 10
  {
    c as int - '0' as int
  }

  function Decimal(n: nat): string {
    if n < 10 then [DigitChar(n)] else Decimal(n / 10) + [DigitChar(n % 10)]
  }

  function Itoa(n: int): string { if n < 0 then "-" + Decimal(-n) else Decimal(n) }

  predicate AllDigits(s: string) { forall i :: 0 <= i < |s| ==> IsDigit(s[i]) }

  function Value(s: string): nat
    requires AllDigits(s)
  {
    if s == "" then 0 else 10 * Value(s[..|s| - 1]) + DigitValue(s[|s| - 1])
  }

  const MAX_INT := 0x7FFF_FFFF_FFFF_FFFF

  function Clamp(n: int): int { if n > MAX_INT then MAX_INT else if n < -MAX_INT - 1 then -MAX_INT - 1 else n }

  /** A number out of range reads as the nearest one, anything that is no number as 0. */
  function Atoi(s: string): int {
    var signed := s != "" && (s[0] == '-' || s[0] == '+');
    var body := if signed then s[1..] else s;
    if body == "" || !AllDigits(body) then 0
    else if signed && s[0] == '-' then Clamp(0 - Value(body)) else Clamp(Value(body))
  }

  lemma {:induction false} DecimalBack(n: nat)
    ensures Decimal(n) != "" && AllDigits(Decimal(n)) && Value(Decimal(n)) == n
  {
    if n >= 10 {
      DecimalBack(n / 10);
      var s := Decimal(n);
      assert s[..|s| - 1] == Decimal(n / 10) && s[|s| - 1] == DigitChar(n % 10);
    } else {
      assert Decimal(n)[..0] == "";
    }
  }

  /** Integer parameters read back, and never contain a delimiter. */
  lemma AtoiItoa(n: int)
    requires -MAX_INT - 1 <= n <= MAX_INT
    ensures Atoi(Itoa(n)) == n && ';' !in Itoa(n)
  {
    DecimalBack(if n < 0 then -n else n);
    hide Value;
    hide Decimal;
    if n < 0 {
      assert Itoa(n)[1..] == Decimal(-n);
    }
  }

  // ---- station URL objects ------------------------------------------------

  class StationURL {
    var scheme: string
    var keys: seq<string>
    var params: map<string, string>

    function View(): Url
      reads this
    {
      Url(scheme, keys, params)
    }

    constructor (u: Url)
      ensures View() == u
    {
      scheme, keys, params := u.scheme, u.keys, u.params;
    }

    method SetParam(k: string, v: string)
      modifies this
      ensures View() == Set(old(View()), k, v)
    {
      if k !in params { keys := keys + [k]; }
      params := params[k := v];
    }

    method SetInt(k: string, n: int)
      modifies this
      ensures View() == Set(old(View()), k, Itoa(n))
    {
      SetParam(k, Itoa(n));
    }

    method RemoveParam(k: string)
      modifies this
      ensures View() == Remove(old(View()), k)
    {
      if k !in params { return; }
      params := params - {k};
      for i := 0 to |keys|
        invariant keys == old(keys) && params == old(params) - {k} && scheme == old(scheme)
        invariant k !in keys[..i]
      {
        if keys[i] == k {
          DropAt(keys, k, i);
          keys := keys[..i] + keys[i + 1..];
          return;
        }
      }
      DropNone(keys, k);
    }

    method Copy() returns (c: StationURL)
      ensures fresh(c) && c.View() == View()
    {
      c := new StationURL(EMPTY);
      c.scheme := scheme;
      c.keys := keys;
      var todo := params.Keys;
      while todo != {}
        invariant todo <= params.Keys && fresh(c) && c.scheme == scheme && c.keys == keys
        invariant c.params == map k | k in params && k !in todo :: params[k]
        invariant unchanged(this)
        decreases todo
      {
        var k :| k in todo;
        c.params := c.params[k := params[k]];
        todo := todo - {k};
      }
    }

    method Text() returns (s: string)
      requires Wf(View())
      ensures s == Print(View())
    {
      var joined := "";
      for i := 0 to |keys|
        invariant joined == Joined(params, keys[..i])
      {
        JoinedSnoc(params, keys[..i], keys[i]);
        assert keys[..i + 1] == keys[..i] + [keys[i]];
        if i > 0 { joined := joined + ";"; }
        joined := joined + (keys[i] + "=" + params[keys[i]]);
      }
      assert keys[..|keys|] == keys;
      s := if scheme != "" then scheme + ":/" + joined else joined;
    }
  }

  lemma {:induction false} DropAt(ks: seq<string>, k: string, i: nat)
    requires i < |ks| && ks[i] == k && k !in ks[..i]
    ensures Drop(ks, k) == ks[..i] + ks[i + 1..]
  {
    if i > 0 {
      assert ks[..i][0] == ks[0];
      assert ks[1..][..i - 1] == ks[..i][1..];
      DropAt(ks[1..], k, i - 1);
      assert [ks[0]] + (ks[1..][..i - 1] + ks[1..][i..]) == ks[..i] + ks[i + 1..];
    }
  }

  lemma {:induction false} DropNone(ks: seq<string>, k: string)
    requires k !in ks
    ensures Drop(ks, k) == ks
  {
    if ks == [] {
    } else {
      DropNone(ks[1..], k);
    }
  }

  lemma {:induction false} JoinedSnoc(m: map<string, string>, ks: seq<string>, k: string)
    requires (forall x :: x in ks ==> x in m) && k in m
    ensures Joined(m, ks + [k]) == (if ks == [] then "" else Joined(m, ks) + ";") + Part(m, k)
  {
    if ks == [] {
      assert ks + [k] == [k];
    } else {
      assert (ks + [k])[0] == ks[0] && (ks + [k])[1..] == ks[1..] + [k];
      JoinedSnoc(m, ks[1..], k);
      if |ks| == 1 {
        assert ks[1..] == [];
      } else {
        assert Joined(m, ks) == Part(m, ks[0]) + ";" + Joined(m, ks[1..]);
      }
    }
  }

  method ParseUrl(s: string) returns (u: StationURL)
    ensures fresh(u) && u.View() == Parse(s)
  {
    hide SepAt;
    u := new StationURL(EMPTY);
    var i := SepAt(s);
    if i == |s| { return; }
    u.scheme := s[..i];
    var rest := s[i + 2..];
    if rest == "" { return; }
    var fields := Split(rest, ';');
    ghost var start := u.View();
    hide Split;
    for j := 0 to |fields|
      invariant fresh(u) && SetFields(u.View(), fields[j..]) == SetFields(start, fields)
    {
      var f := fields[j];
      var cut := CutAt(f, '=');
      assert fields[j..][1..] == fields[j + 1..];
      if cut < |f| { u.SetParam(f[..cut], f[cut + 1..]); }
    }
  }
}
