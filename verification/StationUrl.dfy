/** Station URLs "scheme:/k=v;k=v" (StationURL of nextendo-nex/types.go): an ordered key list beside
    a parameter map, their printed form, and reading it back. */
module StationUrl {

  // ---- values -------------------------------------------------------------

  datatype Url = Url(scheme: string, keys: seq<string>, params: map<string, string>)

  predicate Distinct(ks: seq<string>) { forall i, j :: 0 <= i < j < |ks| ==> ks[i] != ks[j] }

  /** The key order lists the parameter map, each key once. */
  predicate Wf(u: Url) {
    Distinct(u.keys) && (forall k :: k in u.keys ==> k in u.params) && (forall k :: k in u.params ==> k in u.keys)
  }

  function Get(u: Url, k: string): string { if k in u.params then u.params[k] else "" }

  function Set(u: Url, k: string, v: string): Url {
    u.(keys := if k in u.params then u.keys else u.keys + [k], params := u.params[k := v])
  }

  /** The list without the first occurrence of a key. */
  function Drop(ks: seq<string>, k: string): seq<string> {
    if ks == [] then [] else if ks[0] == k then ks[1..] else [ks[0]] + Drop(ks[1..], k)
  }

  function Remove(u: Url, k: string): Url {
    if k in u.params then u.(keys := Drop(u.keys, k), params := u.params - {k}) else u
  }

  // ---- printing -----------------------------------------------------------

  function Part(m: map<string, string>, k: string): string
    requires k in m
  {
    k + "=" + m[k]
  }

  function Joined(m: map<string, string>, ks: seq<string>): string
    requires forall k :: k in ks ==> k in m
  {
    if ks == [] then ""
    else if |ks| == 1 then Part(m, ks[0])
    else Part(m, ks[0]) + ";" + Joined(m, ks[1..])
  }

  function Print(u: Url): string
    requires Wf(u)
  {
    if u.scheme != "" then u.scheme + ":/" + Joined(u.params, u.keys) else Joined(u.params, u.keys)
  }

  // ---- parsing ------------------------------------------------------------

  /** The first place of a character, the length if there is none. */
  function CutAt(s: string, c: char): (i: nat)
    ensures i <= |s| && c !in s[..i] && (i < |s| ==> s[i] == c)
  {
    if s == "" || s[0] == c then 0 else
      var i := CutAt(s[1..], c) + 1;
      assert s[..i] == [s[0]] + s[1..][..i - 1];
      i
  }

  function Split(s: string, c: char): seq<string>
    decreases |s|
  {
    var i := CutAt(s, c);
    if i == |s| then [s] else [s[..i]] + Split(s[i + 1..], c)
  }

  /** The first place of ":/", the length if there is none. */
  function SepAt(s: string): (i: nat)
    ensures i <= |s| && (i < |s| ==> i + 2 <= |s|)
  {
    if |s| < 2 then |s| else if s[..2] == ":/" then 0
    else SepAt(s[1..]) + 1
  }

  function SetField(u: Url, f: string): Url {
    var i := CutAt(f, '=');
    if i == |f| then u else Set(u, f[..i], f[i + 1..])
  }

  function SetFields(u: Url, fs: seq<string>): Url
    decreases |fs|
  {
    if fs == [] then u else SetFields(SetField(u, fs[0]), fs[1..])
  }

  const EMPTY := Url("", [], map[])

  function Parse(s: string): Url {
    var i := SepAt(s);
    if i == |s| then EMPTY
    else
      var u := Url(s[..i], [], map[]);
      if i + 2 == |s| then u else SetFields(u, Split(s[i + 2..], ';'))
  }

  // ---- well-formedness ----------------------------------------------------

  lemma DistinctCons(k: string, tail: seq<string>)
    ensures Distinct([k] + tail) <==> Distinct(tail) && k !in tail
  {
    var ks := [k] + tail;
    if Distinct(ks) {
      forall i, j | 0 <= i < j < |tail| ensures tail[i] != tail[j] { assert ks[i + 1] != ks[j + 1]; }
      forall i | 0 <= i < |tail| ensures tail[i] != k { assert ks[0] != ks[i + 1]; }
    }
    if Distinct(tail) && k !in tail {
      forall i, j | 0 <= i < j < |ks| ensures ks[i] != ks[j] {
        assert ks[j] == tail[j - 1] && (i > 0 ==> ks[i] == tail[i - 1]);
      }
    }
  }

  lemma {:induction false} DropFacts(ks: seq<string>, k: string)
    requires Distinct(ks)
    ensures Distinct(Drop(ks, k)) && forall x :: x in Drop(ks, k) <==> x in ks && x != k
  {
    if ks == [] {
    } else {
      var tail := ks[1..];
      assert ks == [ks[0]] + tail;
      DistinctCons(ks[0], tail);
      DropFacts(tail, k);
      DistinctCons(ks[0], Drop(tail, k));
      hide Distinct;
    }
  }

  lemma SetKeepsWf(u: Url, k: string, v: string)
    requires Wf(u)
    ensures Wf(Set(u, k, v))
  {
  }

  lemma RemoveKeepsWf(u: Url, k: string)
    requires Wf(u)
    ensures Wf(Remove(u, k)) && k !in Remove(u, k).keys
  {
    DropFacts(u.keys, k);
    hide Drop;
    hide Distinct;
  }

  /** Setting and removing keep the key order a listing of the map, and touch no other parameter. */
  lemma EditsKeepWf(u: Url, k: string, v: string)
    requires Wf(u)
    ensures Wf(Set(u, k, v)) && Wf(Remove(u, k))
    ensures k !in Remove(u, k).params && k !in Remove(u, k).keys
    ensures Get(Set(u, k, v), k) == v
    ensures forall x :: x != k ==> Get(Set(u, k, v), x) == Get(u, x) && Get(Remove(u, k), x) == Get(u, x)
  {
    SetKeepsWf(u, k, v);
    RemoveKeepsWf(u, k);
    hide Wf;
    hide Drop;
  }

  lemma {:induction false} SetFieldsWf(u: Url, fs: seq<string>)
    requires Wf(u)
    ensures Wf(SetFields(u, fs)) && SetFields(u, fs).scheme == u.scheme
    ensures u.keys <= SetFields(u, fs).keys
    decreases |fs|
  {
    hide CutAt;
    if fs == [] {
    } else {
      var i := CutAt(fs[0], '=');
      if i < |fs[0]| { SetKeepsWf(u, fs[0][..i], fs[0][i + 1..]); }
      hide Wf;
      SetFieldsWf(SetField(u, fs[0]), fs[1..]);
    }
  }

  /** Whatever is parsed is well-formed. */
  lemma ParseWf(s: string)
    ensures Wf(Parse(s))
  {
    hide Split;
    hide SepAt;
    hide SetFields;
    var i := SepAt(s);
    if i + 2 < |s| { SetFieldsWf(Url(s[..i], [], map[]), Split(s[i + 2..], ';')); }
  }

  // ---- what parsed URLs look like -----------------------------------------

  predicate NoSep(s: string) { forall i :: 0 <= i < |s| - 1 ==> !(s[i] == ':' && s[i + 1] == '/') }

  predicate CleanKey(k: string) { '=' !in k && ';' !in k }

  predicate CleanParams(u: Url) {
    (forall k :: k in u.params ==> CleanKey(k)) && (forall k :: k in u.params ==> ';' !in u.params[k])
  }

  lemma {:induction false} SplitClean(s: string, c: char)
    ensures forall f :: f in Split(s, c) ==> c !in f
    decreases |s|
  {
    var i := CutAt(s, c);
    if i == |s| {
      assert s[..i] == s;
    } else {
      SplitClean(s[i + 1..], c);
    }
  }

  lemma FieldClean(u: Url, f: string)
    requires CleanParams(u) && ';' !in f
    ensures CleanParams(SetField(u, f))
  {
    var i := CutAt(f, '=');
    if i < |f| {
      assert forall x :: x in f[..i] ==> x in f;
      assert forall x :: x in f[i + 1..] ==> x in f;
    }
  }

  lemma {:induction false} FieldsClean(u: Url, fs: seq<string>)
    requires CleanParams(u) && forall f :: f in fs ==> ';' !in f
    ensures CleanParams(SetFields(u, fs))
    decreases |fs|
  {
    hide CleanParams;
    if fs == [] {
    } else {
      assert fs[0] in fs;
      FieldClean(u, fs[0]);
      FieldsClean(SetField(u, fs[0]), fs[1..]);
    }
  }

  lemma {:induction false} SepFirst(s: string)
    ensures NoSep(s[..SepAt(s)])
    ensures SepAt(s) < |s| ==> s[SepAt(s)..SepAt(s) + 2] == ":/"
    ensures NoSep(s) <==> SepAt(s) == |s|
  {
    if |s| >= 2 {
      if s[..2] == ":/" {
        assert s[0] == s[..2][0] && s[1] == s[..2][1];
      } else {
        var i := SepAt(s[1..]);
        SepFirst(s[1..]);
        assert s[..i + 1] == [s[0]] + s[1..][..i];
        assert !(s[0] == ':' && s[1] == '/') by { assert s[..2] == [s[0], s[1]]; }
        assert i > 0 ==> s[1..][..i][0] == s[1];
        if i < |s[1..]| { assert s[1..][i..i + 2] == s[i + 1..i + 3]; }
      }
    }
  }

  /** What is parsed never carries a delimiter where printing would put one. */
  lemma ParsedClean(s: string)
    ensures CleanParams(Parse(s)) && NoSep(Parse(s).scheme)
  {
    SepFirst(s);
    var i := SepAt(s);
    if i < |s| && i + 2 < |s| {
      var u := Url(s[..i], [], map[]);
      SplitClean(s[i + 2..], ';');
      FieldsClean(u, Split(s[i + 2..], ';'));
      SetFieldsWf(u, Split(s[i + 2..], ';'));
    }
  }

  // ---- the round trip -----------------------------------------------------

  lemma CutBefore(a: string, c: char, b: string)
    requires c !in a
    ensures CutAt(a + [c] + b, c) == |a|
  {
    var s := a + [c] + b;
    assert s[|a|] == c;
  }

  lemma CutNone(a: string, c: char)
    requires c !in a
    ensures CutAt(a, c) == |a|
  {
  }

  lemma SplitCons(a: string, c: char, b: string)
    requires c !in a
    ensures Split(a + [c] + b, c) == [a] + Split(b, c)
  {
    CutBefore(a, c, b);
    var s := a + [c] + b;
    assert s[..|a|] == a && s[|a| + 1..] == b;
  }

  function Parts(m: map<string, string>, ks: seq<string>): seq<string>
    requires forall k :: k in ks ==> k in m
  {
    if ks == [] then [] else [Part(m, ks[0])] + Parts(m, ks[1..])
  }

  predicate CleanAt(m: map<string, string>, k: string) { k in m && CleanKey(k) && ';' !in m[k] }

  /** Splitting a printed parameter list gives its parts. */
  lemma {:induction false} SplitJoined(m: map<string, string>, ks: seq<string>)
    requires ks != [] && (forall k :: k in ks ==> k in m) && (forall k :: k in ks ==> CleanAt(m, k))
    ensures Split(Joined(m, ks), ';') == Parts(m, ks)
  {
    assert ks[0] in ks;
    var part := Part(m, ks[0]);
    assert ';' !in part;
    if |ks| == 1 {
      CutNone(part, ';');
      assert Parts(m, ks[1..]) == [];
    } else {
      SplitJoined(m, ks[1..]);
      SplitCons(part, ';', Joined(m, ks[1..]));
      assert part + ";" + Joined(m, ks[1..]) == part + [';'] + Joined(m, ks[1..]);
      hide Split;
    }
  }

  lemma SetPart(u: Url, m: map<string, string>, k: string)
    requires CleanAt(m, k)
    ensures SetField(u, Part(m, k)) == Set(u, k, m[k])
  {
    CutBefore(k, '=', m[k]);
    var f := Part(m, k);
    assert f == k + ['='] + m[k];
    assert f[..|k|] == k && f[|k| + 1..] == m[k];
  }

  /** A URL with the listed parameters of a map added at the end. */
  function Added(u: Url, m: map<string, string>, ks: seq<string>): Url {
    Url(u.scheme, u.keys + ks, u.params + (map k | k in m && k in ks :: m[k]))
  }

  lemma AddedNone(u: Url, m: map<string, string>)
    ensures Added(u, m, []) == u
  {
    var none: seq<string> := [];
    assert Added(u, m, none).params == u.params;
  }

  lemma AddedNext(u: Url, m: map<string, string>, k: string, tail: seq<string>)
    requires k in m && k !in tail && k !in u.params && forall x :: x in tail ==> x in m
    ensures Added(Set(u, k, m[k]), m, tail) == Added(u, m, [k] + tail)
  {
    assert u.keys + [k] + tail == u.keys + ([k] + tail);
    assert u.params[k := m[k]] + (map x | x in m && x in tail :: m[x])
        == u.params + (map x | x in m && x in [k] + tail :: m[x]);
  }

  /** Reading the parts back in order adds exactly the listed keys. */
  lemma {:induction false} SetParts(u: Url, m: map<string, string>, ks: seq<string>)
    requires (forall k :: k in ks ==> k in m && k !in u.params) && (forall k :: k in ks ==> CleanAt(m, k))
    requires Distinct(ks)
    ensures SetFields(u, Parts(m, ks)) == Added(u, m, ks)
    decreases |ks|
  {
    hide SetField;
    if ks == [] {
      AddedNone(u, m);
    } else {
      var k, tail := ks[0], ks[1..];
      assert k in ks;
      assert ks == [k] + tail;
      DistinctCons(k, tail);
      SetPart(u, m, k);
      AddedNext(u, m, k, tail);
      hide Distinct;
      hide CleanAt;
      hide Added;
      hide Part;
      assert Parts(m, ks) == [Part(m, k)] + Parts(m, tail);
      SetParts(Set(u, k, m[k]), m, tail);
    }
  }

  /** The URLs that print and parse back to themselves. */
  predicate Clean(u: Url) { NoSep(u.scheme) && CleanParams(u) && (u.scheme != "" || u.keys == []) }

  lemma {:induction false} SepAfter(a: string, b: string)
    requires NoSep(a)
    ensures SepAt(a + ":/" + b) == |a|
  {
    var s := a + ":/" + b;
    if a == "" {
      assert s[..2] == ":/";
    } else {
      assert s[0] == a[0];
      assert s[1..] == a[1..] + ":/" + b;
      assert s[..2] != ":/" by { assert s[1] == if |a| > 1 then a[1] else ':'; assert s[..2] == [s[0], s[1]]; }
      SepAfter(a[1..], b);
    }
  }

  lemma Cuts(a: string, b: string, c: string)
    ensures (a + b + c)[..|a|] == a && (a + b + c)[|a| + |b|..] == c
  {
  }

  lemma ParsePrinted(scheme: string, body: string)
    requires NoSep(scheme)
    ensures Parse(scheme + ":/" + body) == if body == "" then Url(scheme, [], map[])
                                          else SetFields(Url(scheme, [], map[]), Split(body, ';'))
  {
    SepAfter(scheme, body);
    hide SepAt;
    hide NoSep;
    hide Split;
    hide SetFields;
    Cuts(scheme, ":/", body);
  }

  lemma ListedAgain(u: Url)
    requires Wf(u)
    ensures Added(Url(u.scheme, [], map[]), u.params, u.keys) == u
  {
    hide Distinct;
    assert (map k | k in u.params && k in u.keys :: u.params[k]) == u.params;
    assert map[] + u.params == u.params;
    assert [] + u.keys == u.keys;
  }

  lemma CleanParsesBack(u: Url)
    requires Wf(u) && Clean(u)
    ensures Parse(Print(u)) == u
  {
    if u.scheme == "" {
      assert Print(u) == "";
    } else {
      hide SetFields;
      hide Split;
      hide Joined;
      var body := Joined(u.params, u.keys);
      ParsePrinted(u.scheme, body);
      hide Parse;
      hide NoSep;
      if u.keys != [] {
        assert forall k :: k in u.keys ==> CleanAt(u.params, k);
        JoinedNonempty(u.params, u.keys);
        SplitJoined(u.params, u.keys);
        SetParts(Url(u.scheme, [], map[]), u.params, u.keys);
        ListedAgain(u);
        hide Wf;
        hide Clean;
      } else {
        JoinedEmpty(u);
      }
    }
  }

  lemma JoinedEmpty(u: Url)
    requires Wf(u) && u.keys == []
    ensures Joined(u.params, u.keys) == "" && u.params == map[]
  {
  }

  lemma JoinedNonempty(m: map<string, string>, ks: seq<string>)
    requires ks != [] && forall k :: k in ks ==> k in m
    ensures Joined(m, ks) != ""
  {
  }

  /** Parsing the printed form is the identity exactly on the clean URLs. */
  lemma RoundTripExactly(u: Url)
    requires Wf(u)
    ensures Parse(Print(u)) == u <==> Clean(u)
  {
    if Clean(u) { CleanParsesBack(u); }
    if Parse(Print(u)) == u {
      ParsedClean(Print(u));
      if u.scheme == "" && u.keys != [] { NoSchemeLost(u); }
    }
  }

  lemma JoinedHead(m: map<string, string>, ks: seq<string>) returns (tail: string)
    requires ks != [] && forall k :: k in ks ==> k in m
    ensures Joined(m, ks) == ks[0] + ['='] + (m[ks[0]] + tail) && (tail == "" || tail[0] == ';')
  {
    tail := if |ks| == 1 then "" else ";" + Joined(m, ks[1..]);
    assert ks[0] in ks;
    var k, v := ks[0], m[ks[0]];
    if |ks| > 1 {
      assert k + "=" + v + ";" + Joined(m, ks[1..]) == k + ['='] + (v + tail);
    } else {
      assert k + "=" + v == k + ['='] + (v + tail);
    }
  }

  /** A key that swallows the separator is read back without it. */
  lemma SwallowedKey(k: string, v: string, tail: string)
    requires CleanKey(k) && ';' !in v && (tail == "" || tail[0] == ';')
    requires SepAt(k + ['='] + (v + tail)) == 0
    ensures Parse(k + ['='] + (v + tail)).keys != [] && Parse(k + ['='] + (v + tail)).keys[0] != k
  {
    var s := k + ['='] + (v + tail);
    assert s[..2] == ":/";
    assert s[0] == s[..2][0] && s[1] == s[..2][1];
    assert |k| > 0 ==> s[0] == k[0];
    assert |k| >= 2;
    assert s[2..] == k[2..] + ['='] + (v + tail);
    assert forall x :: x in k[2..] ==> x in k;
    FirstKey(Url(s[..0], [], map[]), k[2..], v, tail);
    hide Split;
    hide SetFields;
  }

  /** Without a scheme the parameters are lost, or read with a different first key. */
  lemma NoSchemeLost(u: Url)
    requires Wf(u) && CleanParams(u) && u.scheme == "" && u.keys != []
    ensures Parse(Print(u)) != u
  {
    var s := Print(u);
    var k := u.keys[0];
    assert k in u.keys;
    var tail := JoinedHead(u.params, u.keys);
    ParsedScheme(s);
    hide Joined;
    hide Parse;
    if SepAt(s) == 0 && s != "" { SwallowedKey(k, u.params[k], tail); }
    hide SepAt;
  }

  lemma ParsedScheme(s: string)
    ensures if SepAt(s) < |s| then Parse(s).scheme == s[..SepAt(s)] else Parse(s) == EMPTY
  {
    hide Split;
    hide SepAt;
    hide SetFields;
    var i := SepAt(s);
    if i + 2 < |s| { SetFieldsWf(Url(s[..i], [], map[]), Split(s[i + 2..], ';')); }
  }

  lemma FirstField(f: string, tail: string)
    requires ';' !in f && (tail == "" || tail[0] == ';')
    ensures Split(f + tail, ';') != [] && Split(f + tail, ';')[0] == f
  {
    if tail == "" {
      assert f + tail == f;
      CutNone(f, ';');
    } else {
      assert f + tail == f + [';'] + tail[1..];
      SplitCons(f, ';', tail[1..]);
    }
  }

  lemma FirstKey(u: Url, k: string, v: string, tail: string)
    requires CleanKey(k) && ';' !in v && u.keys == [] && u.params == map[] && (tail == "" || tail[0] == ';')
    ensures SetFields(u, Split(k + ['='] + (v + tail), ';')).keys != []
    ensures SetFields(u, Split(k + ['='] + (v + tail), ';')).keys[0] == k
  {
    var f := k + ['='] + v;
    assert k + ['='] + (v + tail) == f + tail;
    assert ';' !in f;
    FirstField(f, tail);
    hide Split;
    var fs := Split(f + tail, ';');
    CutBefore(k, '=', v);
    Cuts(k, ['='], v);
    hide CutAt;
    var u1 := SetField(u, f);
    assert u1.keys == [k];
    SetFieldsWf(u1, fs[1..]);
  }
}
