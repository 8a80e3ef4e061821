/** The stations a joiner is given for a host (nextendo-nex/natbridge.go, selectStations of
    nextendo-nex/secureconnection.go) and the stations a host keeps after ReplaceURL. */
module NatBridge {
  import opened Bytes
  import opened StationUrl
  import opened Stations

  const ADDRESS := "address"
  const PORT := "port"
  const TYPE := "type"
  const PA := "Pa"
  const RVCID := "RVCID"

  lemma ParameterNames()
    ensures PORT != TYPE && PORT != PA && TYPE != PA && ADDRESS !in {PORT, TYPE, PA}
    ensures CleanKey(PORT) && CleanKey(TYPE) && CleanKey(PA)
  {
    assert TYPE[0] == 't' && PORT[0] == 'p' && PA[0] == 'P' && ADDRESS[0] == 'a';
  }

  // ---- choosing the local and the public station --------------------------

  /** What is known about addresses from outside: which are private, which UDP port was observed. */
  datatype Network = Network(isPrivate: string -> bool, ports: map<string, u16>)

  function Address(u: Url): string { Get(u, ADDRESS) }

  /** Of the two kinds of station, by address. */
  predicate IsKind(net: Network, u: Url, private_: bool) {
    Address(u) != "" && net.isPrivate(Address(u)) == private_
  }

  lemma HeadAndTail(us: seq<Url>)
    requires us != []
    ensures forall j :: 0 <= j < |us| ==> us[j] == if j == 0 then us[0] else us[1..][j - 1]
  {
  }

  function FirstOfKind(net: Network, us: seq<Url>, private_: bool): (i: Option<nat>)
    ensures i.Some? ==> i.value < |us| && IsKind(net, us[i.value], private_)
                        && forall j :: 0 <= j < i.value ==> !IsKind(net, us[j], private_)
    ensures i.None? ==> forall j :: 0 <= j < |us| ==> !IsKind(net, us[j], private_)
  {
    if us == [] then None
    else if IsKind(net, us[0], private_) then Some(0)
    else match FirstOfKind(net, us[1..], private_)
      case None => HeadAndTail(us); None
      case Some(i) => HeadAndTail(us); Some(i + 1)
  }

  const FLAG_PUBLIC: nat := 0x02

  predicate MarkedPublic(u: Url) { HasBit(Atoi(Get(u, TYPE)) % 0x100, FLAG_PUBLIC) }

  function FirstUnmarked(us: seq<Url>): (i: Option<nat>)
    ensures i.Some? ==> i.value < |us|
  {
    if us == [] then None
    else if !MarkedPublic(us[0]) then Some(0)
    else match FirstUnmarked(us[1..]) case None => None case Some(i) => Some(i + 1)
  }

  /** A private address if there is one, else a station not marked public, else the first. */
  function Local(net: Network, us: seq<Url>): (i: Option<nat>)
    ensures i.Some? ==> i.value < |us|
    ensures i.None? <==> us == []
  {
    match FirstOfKind(net, us, true)
    case Some(i) => Some(i)
    case None =>
      match FirstUnmarked(us)
      case Some(i) => Some(i)
      case None => if us == [] then None else Some(0)
  }

  /** The low byte of the station's type lacks the public flag. */
  predicate Unflagged(u: Url) { Atoi(Get(u, "type")) % 256 / 2 % 2 == 0 }

  lemma {:induction false} FirstUnmarkedExactly(us: seq<Url>)
    ensures match FirstUnmarked(us)
            case Some(i) => i < |us| && Unflagged(us[i]) && forall j :: 0 <= j < i ==> !Unflagged(us[j])
            case None => forall j :: 0 <= j < |us| ==> !Unflagged(us[j])
  {
    hide Atoi;
    if us == [] {
    } else {
      FirstUnmarkedExactly(us[1..]);
      HeadAndTail(us);
    }
  }

  /** The local station is the first with a private address; without one, the first whose type lacks the public flag;
      without that, the first. */
  lemma LocalExactly(net: Network, us: seq<Url>)
    requires us != []
    ensures Local(net, us).Some?
    ensures var i := Local(net, us).value;
            var private_ := (j: nat) requires j < |us| => Address(us[j]) != "" && net.isPrivate(Address(us[j]));
            && i < |us|
            && (if exists j: nat :: j < |us| && private_(j) then private_(i) && forall j: nat :: j < i ==> !private_(j)
                else if exists j: nat :: j < |us| && Unflagged(us[j])
                then Unflagged(us[i]) && forall j: nat :: j < i ==> !Unflagged(us[j])
                else i == 0)
  {
    hide Unflagged;
    FirstUnmarkedExactly(us);
  }

  function Public(net: Network, us: seq<Url>): Option<nat> { FirstOfKind(net, us, false) }

  // ---- the bridge ---------------------------------------------------------

  datatype Status = Bridged | NoStations | NoObservation | NoRvcid

  function LanStation(local: Url, port: nat): Url {
    Remove(Remove(Set(local, PORT, Itoa(port)), TYPE), PA)
  }

  function PublicStation(public: Url, port: nat, pa: string): Url {
    Set(Set(Set(public, PORT, Itoa(port)), TYPE, Itoa(11)), PA, pa)
  }

  function Bridge(net: Network, us: seq<Url>, publicFirst: bool): (seq<Url>, Status) {
    var l, p := Local(net, us), Public(net, us);
    if l.None? || p.None? then (us, NoStations)
    else
      var local, public := us[l.value], us[p.value];
      var pub, priv := Address(public), Address(local);
      if pub == "" || priv == "" || pub == priv then (us, NoStations)
      else if pub !in net.ports then (us, NoObservation)
      else if Atoi(Get(local, RVCID)) == 0 then (us, NoRvcid)
      else
        var lan := LanStation(local, net.ports[pub]);
        var out := PublicStation(public, net.ports[pub], if publicFirst then pub else priv);
        (if publicFirst then [out, lan] else [lan, out], Bridged)
  }

  /** A clean URL stays clean and well-formed through the edits of the bridge. */
  lemma SetClean(u: Url, k: string, v: string)
    requires Wf(u) && CleanParams(u) && CleanKey(k) && ';' !in v
    ensures Wf(Set(u, k, v)) && CleanParams(Set(u, k, v)) && Set(u, k, v).scheme == u.scheme
    ensures Get(Set(u, k, v), k) == v && forall x :: x != k ==> Get(Set(u, k, v), x) == Get(u, x)
  {
    SetKeepsWf(u, k, v);
    hide Wf;
  }

  lemma RemoveClean(u: Url, k: string)
    requires Wf(u) && CleanParams(u)
    ensures Wf(Remove(u, k)) && CleanParams(Remove(u, k)) && k !in Remove(u, k).params
    ensures forall x :: x !in u.params ==> x !in Remove(u, k).params
    ensures forall x :: x != k ==> Get(Remove(u, k), x) == Get(u, x)
  {
    RemoveKeepsWf(u, k);
    hide Wf;
    hide Drop;
  }

  lemma WireClean(u: Url)
    requires Wf(u) && CleanParams(u) && NoSep(u.scheme) && u.scheme != ""
    ensures Parse(Print(u)) == u
  {
    hide Wf;
    hide CleanParams;
    hide NoSep;
    hide Parse;
    hide Print;
    RoundTripExactly(u);
  }

  lemma LanFacts(host: Url, port: nat)
    requires Wf(host) && CleanParams(host) && port <= MAX_INT
    ensures var lan := LanStation(host, port);
            && Wf(lan) && CleanParams(lan) && lan.scheme == host.scheme
            && TYPE !in lan.params && PA !in lan.params
            && Atoi(Get(lan, PORT)) == port
            && (forall k :: k !in {PORT, TYPE, PA} ==> Get(lan, k) == Get(host, k))
  {
    ParameterNames();
    AtoiItoa(port);
    hide Atoi;
    hide Itoa;
    hide PORT;
    hide TYPE;
    hide PA;
    hide CleanKey;
    var u1 := Set(host, PORT, Itoa(port));
    SetClean(host, PORT, Itoa(port));
    hide Wf;
    hide CleanParams;
    var u2 := Remove(u1, TYPE);
    RemoveClean(u1, TYPE);
    RemoveClean(u2, PA);
    hide Drop;
  }

  /** The LAN candidate, as the joiner reads it off the wire: the host's local station with the observed
      port, without a type and without a private-address parameter. */
  lemma LanOnTheWire(host: Url, port: nat)
    requires Wf(host) && CleanParams(host) && NoSep(host.scheme) && host.scheme != "" && port <= MAX_INT
    ensures var lan := LanStation(host, port);
            && Wf(lan)
            && var seen := Parse(Print(lan));
               && seen == lan
               && TYPE !in seen.params && PA !in seen.params
               && Atoi(Get(seen, PORT)) == port
               && (forall k :: k !in {PORT, TYPE, PA} ==> Get(seen, k) == Get(host, k))
  {
    hide Wf;
    hide CleanParams;
    hide NoSep;
    hide Parse;
    hide Print;
    hide Atoi;
    hide PORT;
    hide TYPE;
    hide PA;
    LanFacts(host, port);
    hide LanStation;
    hide Get;
    WireClean(LanStation(host, port));
  }

  lemma PublicFacts(host: Url, port: nat, pa: string)
    requires Wf(host) && CleanParams(host) && port <= MAX_INT && ';' !in pa
    ensures var out := PublicStation(host, port, pa);
            && Wf(out) && CleanParams(out) && out.scheme == host.scheme
            && Atoi(Get(out, TYPE)) == 11 && Get(out, PA) == pa && Atoi(Get(out, PORT)) == port
            && (forall k :: k !in {PORT, TYPE, PA} ==> Get(out, k) == Get(host, k))
  {
    ParameterNames();
    AtoiItoa(port);
    AtoiItoa(11);
    hide Atoi;
    hide Itoa;
    hide PORT;
    hide TYPE;
    hide PA;
    hide CleanKey;
    hide Set;
    hide Get;
    var u1 := Set(host, PORT, Itoa(port));
    SetClean(host, PORT, Itoa(port));
    hide Wf;
    hide CleanParams;
    var u2 := Set(u1, TYPE, Itoa(11));
    SetClean(u1, TYPE, Itoa(11));
    SetClean(u2, PA, pa);
  }

  /** The public candidate, as read off the wire, carries the observed port, type 11 and the requested address. */
  lemma PublicOnTheWire(host: Url, port: nat, pa: string)
    requires Wf(host) && CleanParams(host) && NoSep(host.scheme) && host.scheme != "" && port <= MAX_INT && ';' !in pa
    ensures var out := PublicStation(host, port, pa);
            && Wf(out)
            && var seen := Parse(Print(out));
               && seen == out
               && Atoi(Get(seen, TYPE)) == 11 && Get(seen, PA) == pa && Atoi(Get(seen, PORT)) == port
               && (forall k :: k !in {PORT, TYPE, PA} ==> Get(seen, k) == Get(host, k))
  {
    hide Wf;
    hide CleanParams;
    hide NoSep;
    hide Parse;
    hide Print;
    hide Atoi;
    hide PORT;
    hide TYPE;
    hide PA;
    PublicFacts(host, port, pa);
    hide PublicStation;
    hide Get;
    WireClean(PublicStation(host, port, pa));
  }

  predicate HasPrivate(net: Network, us: seq<Url>) { exists i :: 0 <= i < |us| && IsKind(net, us[i], true) }

  /** The bridge runs exactly when the local and the public candidate have different addresses, a port was
      observed for the public one and the local one carries a connection id; otherwise the host's stations are
      handed over as they are. The LAN address a joiner is given is private exactly when the host reported a
      private address at all. */
  lemma BridgeExactly(net: Network, us: seq<Url>, publicFirst: bool)
    ensures var l, p := Local(net, us), Public(net, us);
            Bridge(net, us, publicFirst).1.Bridged? <==>
              && l.Some? && p.Some? && Address(us[l.value]) !in ["", Address(us[p.value])]
              && Address(us[p.value]) in net.ports && Atoi(Get(us[l.value], RVCID)) != 0
    ensures !Bridge(net, us, publicFirst).1.Bridged? ==> Bridge(net, us, publicFirst).0 == us
    ensures Bridge(net, us, publicFirst).1.Bridged? ==>
              var out := Bridge(net, us, publicFirst).0;
              && |out| == 2
              && Address(out[if publicFirst then 1 else 0]) == Address(us[Local(net, us).value])
              && Address(out[if publicFirst then 0 else 1]) == Address(us[Public(net, us).value])
              && !net.isPrivate(Address(out[if publicFirst then 0 else 1]))
              && (net.isPrivate(Address(out[if publicFirst then 1 else 0])) <==> HasPrivate(net, us))
  {
    ParameterNames();
    hide Atoi;
    hide Itoa;
    LocalPrivate(net, us);
    hide Local;
    hide Drop;
    hide HasPrivate;
    hide ADDRESS;
    hide PORT;
    hide TYPE;
    hide PA;
  }

  lemma LocalPrivate(net: Network, us: seq<Url>)
    ensures var l := Local(net, us);
            l.Some? && Address(us[l.value]) != "" ==> (IsKind(net, us[l.value], true) <==> HasPrivate(net, us))
  {
    hide MarkedPublic;
    hide Address;
  }

  function Marked(address: string): Url { Url("prudps", [ADDRESS, TYPE], map[ADDRESS := address, TYPE := Itoa(11)]) }

  function Unmarked(address: string): Url { Url("prudps", [ADDRESS, RVCID], map[ADDRESS := address, RVCID := Itoa(7)]) }

  lemma TwoStations(a: string, b: string)
    ensures Address(Marked(a)) == a && Address(Unmarked(b)) == b && Atoi(Get(Unmarked(b), RVCID)) == 7
    ensures MarkedPublic(Marked(a)) && !MarkedPublic(Unmarked(b))
  {
    AtoiItoa(11);
    AtoiItoa(7);
    EmptyIsZero();
    hide Atoi;
    hide Itoa;
    assert TYPE[0] == 't' && RVCID[0] == 'R' && ADDRESS[0] == 'a';
  }

  /** A host with two public addresses and no private one is bridged all the same: the station not marked
      public passes for the local one. */
  lemma BridgedWithoutPrivate(net: Network, a: string, b: string)
    requires a != b && a in net.ports && a != "" && b != "" && !net.isPrivate(a) && !net.isPrivate(b)
    ensures var us := [Marked(a), Unmarked(b)];
            var (out, status) := Bridge(net, us, false);
            && !HasPrivate(net, us) && status.Bridged?
            && |out| == 2 && Address(out[0]) == b && Address(out[1]) == a
  {
    TwoStations(a, b);
    hide Marked;
    hide Unmarked;
    hide Address;
    hide Atoi;
    hide MarkedPublic;
    hide HasPrivate;
    Fallback(net, Marked(a), Unmarked(b));
    hide Local;
    hide Public;
    BridgeExactly(net, [Marked(a), Unmarked(b)], false);
    hide Bridge;
  }

  lemma Fallback(net: Network, host: Url, vpn: Url)
    requires MarkedPublic(host) && !MarkedPublic(vpn) && IsKind(net, host, false) && !IsKind(net, vpn, true)
    ensures Local(net, [host, vpn]) == Some(1) && Public(net, [host, vpn]) == Some(0)
    ensures !HasPrivate(net, [host, vpn])
  {
    hide MarkedPublic;
    hide Address;
    var us := [host, vpn];
    assert us[1..] == [vpn] && us[1..][1..] == [];
    assert forall i :: 0 <= i < |us| ==> !IsKind(net, us[i], true);
    assert FirstOfKind(net, us, true) == None;
    assert FirstUnmarked([vpn]) == Some(0);
    assert FirstUnmarked(us) == Some(1);
  }

  lemma EmptyIsZero()
    ensures Atoi("") == 0
  {
  }

  /** Stations as they come off the wire: parsed from text. */
  ghost predicate FromWire(us: seq<Url>) {
    forall i :: 0 <= i < |us| ==> exists text: string :: us[i] == Parse(text)
  }

  lemma WireFacts(us: seq<Url>, i: nat)
    requires FromWire(us) && i < |us|
    ensures Wf(us[i]) && CleanParams(us[i]) && NoSep(us[i].scheme)
    ensures ';' !in Get(us[i], ADDRESS)
  {
    hide Parse;
    hide Wf;
    hide NoSep;
    var text: string :| us[i] == Parse(text);
    ParseWf(text);
    ParsedClean(text);
  }

  /** What a joiner reads of a bridged host, when the host's own stations came off the wire: the LAN
      candidate is the host's local station with the observed port and neither type nor Pa, the public one
      has the observed port, type 11 and the requested address, and both keep every other parameter. This
      needs a scheme on each of the two stations, and no more. */
  lemma BridgeOnTheWire(net: Network, us: seq<Url>, publicFirst: bool)
    requires FromWire(us) && Bridge(net, us, publicFirst).1.Bridged?
    requires us[Local(net, us).value].scheme != "" && us[Public(net, us).value].scheme != ""
    ensures var host, other := us[Local(net, us).value], us[Public(net, us).value];
            var port := net.ports[Address(other)];
            var out := Bridge(net, us, publicFirst).0;
            && |out| == 2 && Wf(out[0]) && Wf(out[1])
            && var lan := Parse(Print(out[if publicFirst then 1 else 0]));
               var pub := Parse(Print(out[if publicFirst then 0 else 1]));
               && TYPE !in lan.params && PA !in lan.params && Atoi(Get(lan, PORT)) == port
               && Atoi(Get(pub, TYPE)) == 11 && Atoi(Get(pub, PORT)) == port
               && Get(pub, PA) == Address(if publicFirst then other else host)
               && (forall k :: k !in {PORT, TYPE, PA} ==> Get(lan, k) == Get(host, k) && Get(pub, k) == Get(other, k))
  {
    hide Parse;
    hide Print;
    hide Wf;
    hide CleanParams;
    hide NoSep;
    hide Atoi;
    hide LanStation;
    hide PublicStation;
    hide Local;
    hide FirstOfKind;
    hide Get;
    hide PORT;
    hide TYPE;
    hide PA;
    hide ADDRESS;
    var l, p := Local(net, us).value, Public(net, us).value;
    WireFacts(us, l);
    WireFacts(us, p);
    var port := net.ports[Address(us[p])];
    LanOnTheWire(us[l], port);
    PublicOnTheWire(us[p], port, Address(if publicFirst then us[p] else us[l]));
  }

  lemma StationBack(u: Url)
    requires Wf(u) && CleanParams(u) && NoSep(u.scheme) && u.keys != []
    ensures Parse(Print(u)) == u <==> u.scheme != ""
  {
    hide Wf;
    hide CleanParams;
    hide NoSep;
    hide Parse;
    hide Print;
    RoundTripExactly(u);
  }

  lemma LanKept(host: Url, port: nat)
    requires Wf(host) && CleanParams(host) && port <= MAX_INT
    ensures LanStation(host, port).keys != []
  {
    ParameterNames();
    hide PORT;
    hide TYPE;
    hide PA;
    hide Itoa;
    hide Drop;
    LanFacts(host, port);
    var lan := LanStation(host, port);
    assert PORT in lan.params;
  }

  lemma PublicKept(host: Url, port: nat, pa: string)
    requires Wf(host) && CleanParams(host) && port <= MAX_INT && ';' !in pa
    ensures PublicStation(host, port, pa).keys != []
  {
    hide PORT;
    hide TYPE;
    hide PA;
    hide Itoa;
    PublicFacts(host, port, pa);
    assert PA in PublicStation(host, port, pa).params;
  }

  /** Both candidates read back as they were sent exactly when both stations have a scheme. */
  lemma BridgeReadsBackExactly(net: Network, us: seq<Url>, publicFirst: bool)
    requires FromWire(us) && Bridge(net, us, publicFirst).1.Bridged?
    ensures var out := Bridge(net, us, publicFirst).0;
            && |out| == 2 && Wf(out[0]) && Wf(out[1])
            && ((Parse(Print(out[0])) == out[0] && Parse(Print(out[1])) == out[1]) <==>
                  us[Local(net, us).value].scheme != "" && us[Public(net, us).value].scheme != "")
  {
    hide Parse;
    hide Print;
    hide Wf;
    hide CleanParams;
    hide NoSep;
    hide Atoi;
    hide LanStation;
    hide PublicStation;
    hide Local;
    hide FirstOfKind;
    hide Get;
    hide PORT;
    hide TYPE;
    hide PA;
    hide ADDRESS;
    var l, p := Local(net, us).value, Public(net, us).value;
    WireFacts(us, l);
    WireFacts(us, p);
    var port, pa := net.ports[Address(us[p])], Address(if publicFirst then us[p] else us[l]);
    LanFacts(us[l], port);
    PublicFacts(us[p], port, pa);
    LanKept(us[l], port);
    PublicKept(us[p], port, pa);
    StationBack(LanStation(us[l], port));
    StationBack(PublicStation(us[p], port, pa));
  }

  // ---- the bridge on URL objects ------------------------------------------

  /** The objects currently hold these values. */
  ghost predicate Shows(us: seq<StationURL>, vs: seq<Url>)
    reads us
  {
    |us| == |vs| && forall i :: 0 <= i < |us| ==> us[i].View() == vs[i]
  }

  /** `i` is the first station of a kind among the first `n`. */
  predicate FirstSoFar(net: Network, vs: seq<Url>, n: nat, private_: bool, i: Option<nat>)
    requires n <= |vs|
  {
    match i
    case None => forall j :: 0 <= j < n ==> !IsKind(net, vs[j], private_)
    case Some(f) => f < n && IsKind(net, vs[f], private_) && forall j :: 0 <= j < f ==> !IsKind(net, vs[j], private_)
  }

  lemma FirstFound(net: Network, vs: seq<Url>, private_: bool, i: Option<nat>)
    requires FirstSoFar(net, vs, |vs|, private_, i)
    ensures FirstOfKind(net, vs, private_) == i
  {
    var f := FirstOfKind(net, vs, private_);
    hide FirstOfKind;
  }

  lemma {:induction false} UnmarkedFound(vs: seq<Url>, n: nat)
    requires n <= |vs| && forall j :: 0 <= j < n ==> MarkedPublic(vs[j])
    ensures FirstUnmarked(vs) == if n == |vs| then None
                                 else if !MarkedPublic(vs[n]) then Some(n) else FirstUnmarked(vs)
    decreases |vs|
  {
    hide MarkedPublic;
    if n > 0 {
      assert vs[0] == vs[0..n][0];
      UnmarkedFound(vs[1..], n - 1);
    }
  }

  function Object(us: seq<StationURL>, i: Option<nat>): StationURL?
    requires i.Some? ==> i.value < |us|
  {
    if i.None? then null else us[i.value]
  }

  method SelectStations(net: Network, us: seq<StationURL>, ghost vs: seq<Url>)
      returns (lan: StationURL?, pub: StationURL?)
    requires Shows(us, vs)
    ensures lan == Object(us, Local(net, vs)) && pub == Object(us, Public(net, vs))
  {
    hide MarkedPublic;
    lan, pub := null, null;
    ghost var l: Option<nat>, p: Option<nat> := None, None;
    for i := 0 to |us|
      invariant FirstSoFar(net, vs, i, true, l) && FirstSoFar(net, vs, i, false, p)
      invariant lan == Object(us, l) && pub == Object(us, p)
    {
      var addr := Get(us[i].View(), ADDRESS);
      if addr != "" {
        if net.isPrivate(addr) {
          if lan == null { lan, l := us[i], Some(i); }
        } else if pub == null { pub, p := us[i], Some(i); }
      }
    }
    FirstFound(net, vs, true, l);
    FirstFound(net, vs, false, p);
    if lan == null {
      for i := 0 to |us|
        invariant lan == null && forall j :: 0 <= j < i ==> MarkedPublic(vs[j])
      {
        if !MarkedPublic(us[i].View()) {
          lan := us[i];
          UnmarkedFound(vs, i);
          return;
        }
      }
      UnmarkedFound(vs, |us|);
      if |us| > 0 { lan := us[0]; }
    }
  }

  method MakeLan(host: StationURL, port: nat) returns (u: StationURL)
    ensures fresh(u) && u.View() == LanStation(host.View(), port)
  {
    hide Set;
    hide Remove;
    u := host.Copy();
    u.SetInt(PORT, port);
    u.RemoveParam(TYPE);
    u.RemoveParam(PA);
  }

  method MakePublic(host: StationURL, port: nat, pa: string) returns (u: StationURL)
    ensures fresh(u) && u.View() == PublicStation(host.View(), port, pa)
  {
    hide Set;
    u := host.Copy();
    u.SetInt(PORT, port);
    u.SetInt(TYPE, 11);
    u.SetParam(PA, pa);
  }

  /** The joiner's stations are new objects or the host's own; the host's URLs are not modified. */
  method BridgeStations(net: Network, us: seq<StationURL>, ghost vs: seq<Url>, publicFirst: bool)
      returns (out: seq<StationURL>, ghost outs: seq<Url>, status: Status)
    requires Shows(us, vs)
    ensures (outs, status) == Bridge(net, vs, publicFirst) && Shows(out, outs) && Shows(us, vs)
    ensures status.Bridged? ==> forall u :: u in out ==> fresh(u)
    ensures !status.Bridged? ==> out == us
  {
    hide Atoi;
    hide LanStation;
    hide PublicStation;
    hide Local;
    hide FirstOfKind;
    hide ADDRESS;
    hide RVCID;
    hide Get;
    hide StationURL.View;
    out, outs := us, vs;
    var lan, pub := SelectStations(net, us, vs);
    if lan == null || pub == null { return us, vs, NoStations; }
    var publicAddr, privateAddr := Get(pub.View(), ADDRESS), Get(lan.View(), ADDRESS);
    if publicAddr == "" || privateAddr == "" || publicAddr == privateAddr { return us, vs, NoStations; }
    if publicAddr !in net.ports { return us, vs, NoObservation; }
    var port := net.ports[publicAddr];
    if Atoi(Get(lan.View(), RVCID)) == 0 { return us, vs, NoRvcid; }
    var a := MakeLan(lan, port);
    var b := MakePublic(pub, port, if publicFirst then publicAddr else privateAddr);
    if publicFirst { return [b, a], [b.View(), a.View()], Bridged; }
    return [a, b], [a.View(), b.View()], Bridged;
  }

  // ---- ReplaceURL ---------------------------------------------------------

  function PlaceOf(us: seq<Url>, a: string): (i: nat)
    ensures i <= |us| && (i < |us| ==> Address(us[i]) == a) && forall j :: 0 <= j < i ==> Address(us[j]) != a
  {
    if us == [] || Address(us[0]) == a then 0
    else
      var i := PlaceOf(us[1..], a) + 1;
      assert forall j :: 0 <= j < i ==> us[j] == if j == 0 then us[0] else us[1..][j - 1];
      i
  }

  /** A station takes the place of the one with its address, or comes last. */
  function Keep(us: seq<Url>, u: Url): seq<Url> {
    var i := PlaceOf(us, Address(u));
    if i < |us| then us[i := u] else us + [u]
  }

  function Dedupe(all: seq<Url>): seq<Url> {
    if all == [] then [] else Keep(Dedupe(all[..|all| - 1]), all[|all| - 1])
  }

  predicate DistinctAddresses(us: seq<Url>) {
    forall i, j :: 0 <= i < j < |us| ==> Address(us[i]) != Address(us[j])
  }

  /** `u` is the last station of its address. */
  predicate LastOfItsAddress(all: seq<Url>, u: Url) {
    exists j :: 0 <= j < |all| && all[j] == u && forall k :: j < k < |all| ==> Address(all[k]) != Address(u)
  }

  /** One station per address, in the order in which the addresses were first seen, each the last one given. */
  predicate Deduped(all: seq<Url>, us: seq<Url>) {
    && (forall j :: 0 <= j < |all| ==> PlaceOf(us, Address(all[j])) < |us|)
    && (forall i :: 0 <= i < |us| ==> LastOfItsAddress(all, us[i]))
    && (forall i, j :: 0 <= i < j < |us| ==> PlaceOf(all, Address(us[i])) < PlaceOf(all, Address(us[j])))
  }

  lemma PlaceGrows(all: seq<Url>, u: Url, a: string)
    ensures PlaceOf(all + [u], a) == if PlaceOf(all, a) < |all| then PlaceOf(all, a)
                                     else if Address(u) == a then |all| else |all| + 1
  {
    var all' := all + [u];
    assert forall j :: 0 <= j < |all| ==> all'[j] == all[j];
    var i, i' := PlaceOf(all, a), PlaceOf(all', a);
    hide PlaceOf;
    hide Address;
    assert all'[|all|] == u;
    assert forall j :: 0 <= j < i ==> Address(all'[j]) != a;
    if i < |all| { assert Address(all'[i]) == a; }
  }

  lemma LastGrows(all: seq<Url>, u: Url, v: Url)
    ensures LastOfItsAddress(all + [u], u)
    ensures LastOfItsAddress(all, v) && Address(v) != Address(u) ==> LastOfItsAddress(all + [u], v)
  {
    var all' := all + [u];
    assert all'[|all|] == u;
    if LastOfItsAddress(all, v) && Address(v) != Address(u) {
      var j :| 0 <= j < |all| && all[j] == v && forall k :: j < k < |all| ==> Address(all[k]) != Address(v);
      assert all'[j] == v && forall k :: j < k < |all'| ==> Address(all'[k]) != Address(v);
    }
  }

  lemma KeepFacts(us: seq<Url>, u: Url)
    ensures var r := Keep(us, u);
            var p := PlaceOf(us, Address(u));
            && |us| <= |r| <= |us| + 1 && p < |r| && r[p] == u && (|r| > |us| ==> p == |us|)
            && (forall i :: 0 <= i < |us| && i != p ==> r[i] == us[i])
            && (forall i :: 0 <= i < |us| ==> Address(r[i]) == Address(us[i]))
  {
  }

  lemma SamePlaces(us: seq<Url>, r: seq<Url>, a: string)
    requires |us| <= |r| && forall i :: 0 <= i < |us| ==> Address(r[i]) == Address(us[i])
    ensures PlaceOf(us, a) < |us| ==> PlaceOf(r, a) == PlaceOf(us, a)
  {
    var i, j := PlaceOf(us, a), PlaceOf(r, a);
    hide PlaceOf;
    assert i < |us| ==> Address(r[i]) == a;
    assert j < |us| ==> Address(us[j]) == a;
  }

  lemma CoveredGrows(all: seq<Url>, us: seq<Url>, u: Url)
    requires Deduped(all, us)
    ensures forall j :: 0 <= j < |all| + 1 ==> PlaceOf(Keep(us, u), Address((all + [u])[j])) < |Keep(us, u)|
  {
    hide PlaceOf;
    KeepFacts(us, u);
    hide Keep;
    hide Address;
    var all', r := all + [u], Keep(us, u);
    forall j | 0 <= j < |all'| ensures PlaceOf(r, Address(all'[j])) < |r| {
      if j < |all| { SamePlaces(us, r, Address(all[j])); }
    }
  }

  lemma LatestGrows(all: seq<Url>, us: seq<Url>, u: Url)
    requires Deduped(all, us) && DistinctAddresses(us)
    ensures forall i :: 0 <= i < |Keep(us, u)| ==> LastOfItsAddress(all + [u], Keep(us, u)[i])
  {
    hide PlaceOf;
    KeepFacts(us, u);
    hide Keep;
    hide Address;
    hide LastOfItsAddress;
    var p := PlaceOf(us, Address(u));
    var r := Keep(us, u);
    forall i | 0 <= i < |r| ensures LastOfItsAddress(all + [u], r[i]) {
      LastGrows(all, u, r[i]);
      if i != p { Others(us, p, i); }
    }
  }

  lemma OrderGrows(all: seq<Url>, us: seq<Url>, u: Url, i: nat, j: nat)
    requires Deduped(all, us) && (forall k :: 0 <= k < |us| ==> PlaceOf(all, Address(us[k])) < |all|)
    requires i < j < |Keep(us, u)|
    ensures PlaceOf(all + [u], Address(Keep(us, u)[i])) < PlaceOf(all + [u], Address(Keep(us, u)[j])) < |all| + 1
  {
    hide PlaceOf;
    KeepFacts(us, u);
    hide Keep;
    hide Address;
    hide LastOfItsAddress;
    var r := Keep(us, u);
    PlaceGrows(all, u, Address(r[i]));
    PlaceGrows(all, u, Address(r[j]));
    if j == |us| { NewAddress(all, us, u); }
  }

  lemma PlacedGrows(all: seq<Url>, us: seq<Url>, u: Url)
    requires forall k :: 0 <= k < |us| ==> PlaceOf(all, Address(us[k])) < |all|
    ensures forall i :: 0 <= i < |Keep(us, u)| ==> PlaceOf(all + [u], Address(Keep(us, u)[i])) < |all| + 1
  {
    hide PlaceOf;
    KeepFacts(us, u);
    hide Keep;
    hide Address;
    var r := Keep(us, u);
    forall i | 0 <= i < |r| ensures PlaceOf(all + [u], Address(r[i])) < |all| + 1 {
      PlaceGrows(all, u, Address(r[i]));
    }
  }

  lemma DedupedGrows(all: seq<Url>, us: seq<Url>, u: Url)
    requires Deduped(all, us) && DistinctAddresses(us)
    requires forall i :: 0 <= i < |us| ==> PlaceOf(all, Address(us[i])) < |all|
    ensures Deduped(all + [u], Keep(us, u)) && DistinctAddresses(Keep(us, u))
    ensures forall i :: 0 <= i < |Keep(us, u)| ==> PlaceOf(all + [u], Address(Keep(us, u)[i])) < |all| + 1
  {
    hide PlaceOf;
    hide Address;
    hide LastOfItsAddress;
    var r := Keep(us, u);
    CoveredGrows(all, us, u);
    LatestGrows(all, us, u);
    PlacedGrows(all, us, u);
    forall i, j | 0 <= i < j < |r| ensures PlaceOf(all + [u], Address(r[i])) < PlaceOf(all + [u], Address(r[j])) {
      OrderGrows(all, us, u, i, j);
    }
    hide Keep;
  }

  lemma Others(us: seq<Url>, p: nat, i: nat)
    requires DistinctAddresses(us) && i < |us| && p != i
    ensures p < |us| ==> Address(us[i]) != Address(us[p])
  {
    hide Address;
    if p < |us| { assert Address(us[if i < p then i else p]) != Address(us[if i < p then p else i]); }
  }

  lemma NewAddress(all: seq<Url>, us: seq<Url>, u: Url)
    requires Deduped(all, us) && PlaceOf(us, Address(u)) == |us|
    ensures PlaceOf(all, Address(u)) == |all|
  {
    hide PlaceOf;
    hide Address;
  }

  /** Deduplication by address keeps exactly one station per address, the last given, at the place of the first. */
  lemma {:induction false} DedupeExact(all: seq<Url>)
    ensures Deduped(all, Dedupe(all)) && DistinctAddresses(Dedupe(all))
    ensures forall i :: 0 <= i < |Dedupe(all)| ==> PlaceOf(all, Address(Dedupe(all)[i])) < |all|
    decreases |all|
  {
    if all == [] {
    } else {
      hide Deduped;
      hide Keep;
      hide PlaceOf;
      hide Address;
      hide DistinctAddresses;
      var before, u := all[..|all| - 1], all[|all| - 1];
      assert all == before + [u];
      DedupeExact(before);
      DedupedGrows(before, Dedupe(before), u);
    }
  }

  /** After ReplaceURL the new station is the one kept for its address. */
  lemma NewStationWins(stations: seq<Url>, u: Url)
    ensures var r := Dedupe(stations + [u]); PlaceOf(r, Address(u)) < |r| && r[PlaceOf(r, Address(u))] == u
  {
    var all := stations + [u];
    assert all[..|all| - 1] == stations;
    var d := Dedupe(stations);
    KeepFacts(d, u);
    DedupeExact(all);
    var r := Keep(d, u);
    var p, q := PlaceOf(d, Address(u)), PlaceOf(r, Address(u));
    hide PlaceOf;
    hide Keep;
    assert Address(r[p]) == Address(u);
    if q < p { Others(r, q, p); }
  }

  function AsInt(pid: u64): int { if pid > MAX_INT then pid - 0x1_0000_0000_0000_0000 else pid }

  const PID := "PID"

  /** The player id is kept as the signed 64-bit number of the same bits, and reads back so. */
  lemma PidKept(u: Url, pid: u64)
    ensures var v := Atoi(Get(Set(u, "PID", Itoa(AsInt(pid))), "PID"));
            -0x8000_0000_0000_0000 <= v < 0x8000_0000_0000_0000 && v % 0x1_0000_0000_0000_0000 == pid
  {
    hide Atoi;
    hide Itoa;
    SignedBits(pid);
    hide AsInt;
    AtoiItoa(AsInt(pid));
    assert Get(Set(u, "PID", Itoa(AsInt(pid))), "PID") == Itoa(AsInt(pid));
    hide Get;
    hide Set;
  }

  lemma SignedBits(pid: u64)
    ensures -0x8000_0000_0000_0000 <= AsInt(pid) < 0x8000_0000_0000_0000
    ensures AsInt(pid) % 0x1_0000_0000_0000_0000 == pid
  {
  }

  ghost predicate Indexed(byAddr: map<string, StationURL>, order: seq<string>, ws: seq<Url>)
    reads byAddr.Values
  {
    && |order| == |ws|
    && (forall i :: 0 <= i < |ws| ==> order[i] == Address(ws[i]) && order[i] in byAddr)
    && (forall i :: 0 <= i < |ws| && order[i] in byAddr ==> byAddr[order[i]].View() == ws[i])
    && (forall a :: a in byAddr ==> PlaceOf(ws, a) < |ws|)
  }

  lemma IndexedNext(byAddr: map<string, StationURL>, order: seq<string>, ws: seq<Url>, st: StationURL)
    requires Indexed(byAddr, order, ws) && DistinctAddresses(ws)
    ensures var a := Address(st.View());
            Indexed(byAddr[a := st], if a in byAddr then order else order + [a], Keep(ws, st.View()))
  {
    hide PlaceOf;
    var u := st.View();
    var a := Address(u);
    var p := PlaceOf(ws, a);
    var r := Keep(ws, u);
    KeepFacts(ws, u);
    hide Keep;
    hide Address;
    hide StationURL.View;
    var byAddr' := byAddr[a := st];
    var order' := if a in byAddr then order else order + [a];
    assert a in byAddr <==> p < |ws|;
    forall i | 0 <= i < |r| ensures order'[i] == Address(r[i]) && order'[i] in byAddr' {
    }
    forall i | 0 <= i < |r| ensures byAddr'[order'[i]].View() == r[i] {
      if i != p { Others(ws, p, i); }
    }
    forall b | b in byAddr' ensures PlaceOf(r, b) < |r| {
      if b in byAddr { SamePlaces(ws, r, b); }
    }
  }

  lemma IndexedNone()
    ensures Indexed(map[], [], Dedupe([]))
  {
  }

  lemma IndexedStep(byAddr: map<string, StationURL>, order: seq<string>, vs: seq<Url>, i: nat, st: StationURL)
    requires i < |vs| && st.View() == vs[i] && Indexed(byAddr, order, Dedupe(vs[..i]))
    ensures var a := Address(st.View());
            Indexed(byAddr[a := st], if a in byAddr then order else order + [a], Dedupe(vs[..i + 1]))
  {
    hide Indexed;
    hide Deduped;
    hide DistinctAddresses;
    hide Keep;
    hide Address;
    hide PlaceOf;
    assert vs[..i + 1][..i] == vs[..i] && vs[..i + 1][i] == vs[i];
    DedupeExact(vs[..i]);
    IndexedNext(byAddr, order, Dedupe(vs[..i]), st);
  }

  method Index(stations: seq<StationURL>, ghost vs: seq<Url>)
      returns (byAddr: map<string, StationURL>, order: seq<string>)
    requires Shows(stations, vs)
    ensures Indexed(byAddr, order, Dedupe(vs))
  {
    hide Indexed;
    hide Dedupe;
    hide Address;
    byAddr, order := map[], [];
    IndexedNone();
    assert vs[..0] == [];
    for i := 0 to |stations|
      invariant Indexed(byAddr, order, Dedupe(vs[..i]))
    {
      IndexedStep(byAddr, order, vs, i, stations[i]);
      var a := Address(stations[i].View());
      if a !in byAddr { order := order + [a]; }
      byAddr := byAddr[a := stations[i]];
    }
    assert vs[..|stations|] == vs;
  }

  method Rebuild(byAddr: map<string, StationURL>, order: seq<string>, ghost ws: seq<Url>)
      returns (rebuilt: seq<StationURL>)
    requires Indexed(byAddr, order, ws)
    ensures Shows(rebuilt, ws)
  {
    hide PlaceOf;
    hide Address;
    rebuilt := [];
    for i := 0 to |order|
      invariant |rebuilt| == i && forall j :: 0 <= j < i ==> rebuilt[j].View() == ws[j]
    {
      rebuilt := rebuilt + [byAddr[order[i]]];
    }
  }

  /** Stores the host's new station: the stations are rebuilt, one per address. */
  method ReplaceUrl(stations: seq<StationURL>, ghost vs: seq<Url>, text: string, pid: u64)
      returns (rebuilt: seq<StationURL>, ghost ws: seq<Url>)
    requires Shows(stations, vs)
    ensures ws == Dedupe(vs + [Set(Parse(text), PID, Itoa(AsInt(pid)))]) && Shows(rebuilt, ws) && Shows(stations, vs)
  {
    hide Itoa;
    hide Parse;
    hide Set;
    hide Keep;
    hide Address;
    hide Indexed;
    var station := ParseUrl(text);
    station.SetInt(PID, AsInt(pid));
    ghost var u := station.View();
    var byAddr, order := Index(stations, vs);
    DedupeExact(vs);
    hide Deduped;
    IndexedNext(byAddr, order, Dedupe(vs), station);
    var newAddr := Address(station.View());
    if newAddr !in byAddr { order := order + [newAddr]; }
    byAddr := byAddr[newAddr := station];
    assert (vs + [u])[..|vs|] == vs;
    ws := Dedupe(vs + [u]);
    rebuilt := Rebuild(byAddr, order, ws);
  }
}
