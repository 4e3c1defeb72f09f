/** The default zone as firewalld's fallback for traffic of no zone, which the flat list lacks:
    a test on the layout says whether that is ever noticed. */
module ZoneFallback {
  import opened Bits
  import opened Bytes
  import opened Cidr
  import opened Intervals
  import opened Rules
  import opened PortOrder
  import opened FirstMatch
  import opened Firewalld
  import opened Layouts

  // ---- what firewalld does ------------------------------------------------------------------------

  function DefaultElements(zones: seq<Zone>, defaultZone: string): (elems: seq<Template>)
    requires ValidZones(zones)
    ensures ValidTemplates(elems)
  {
    if zones == [] then []
    else
      ValidTail(zones);
      if zones[0].name == defaultZone then zones[0].elems else DefaultElements(zones[1..], defaultZone)
  }

  /** A packet of no zone goes to the default zone, whatever that zone is bound to. */
  ghost function DispatchOrDefault(active: seq<Zone>, fallback: seq<Template>, sets: SetFn, p: Packet): Option<Action>
    requires ValidZones(active) && ValidTemplates(fallback)
  {
    if Outside(active, sets, p) then FirstElement(fallback, sets, p) else Dispatch(active, sets, p)
  }

  /** A packet of the family on its way in. */
  predicate Arrives(p: Packet, v6: bool) {
    p.Valid() && p.v6 == v6 && p.iif != []
  }

  // ---- interfaces: a name that no pattern matches ----------------------------------------------------

  function Stem(pat: Name): Name {
    if Wildcard(pat) then pat[..|pat| - 1] else pat
  }

  predicate FreeName(pats: seq<Name>, n: Name) {
    n != [] && ValidName(n) && forall i :: 0 <= i < |pats| ==> !NameMatches(pats[i], n)
  }

  /** Some beginning of a pattern, as it is or with one more byte, is a free name. */
  predicate NameFree(pats: seq<Name>) {
    pats == [] || exists j, k :: 0 <= j < |pats| && 0 <= k <= |pats[j]| && FreeFrom(pats, Stem(pats[j]), k)
  }

  predicate FreeFrom(pats: seq<Name>, stem: Name, k: nat) {
    k <= |stem| && (FreeName(pats, stem[..k]) || exists c: Byte :: 0 < c < 256 && FreeName(pats, stem[..k] + [c]))
  }

  /** The longest beginning of n that begins a pattern. */
  lemma LongestStem(pats: seq<Name>, n: Name) returns (j: nat, k: nat)
    requires pats != []
    ensures j < |pats| && k <= |n| && n[..k] <= Stem(pats[j])
    ensures k == |n| || forall i :: 0 <= i < |pats| ==> !(n[..k + 1] <= Stem(pats[i]))
  {
    j, k := 0, 0;
    while k < |n| && exists i :: 0 <= i < |pats| && n[..k + 1] <= Stem(pats[i])
      invariant j < |pats| && k <= |n| && n[..k] <= Stem(pats[j])
    {
      j :| 0 <= j < |pats| && n[..k + 1] <= Stem(pats[j]);
      k := k + 1;
    }
  }

  lemma PrefixGrows(s: Name, n: Name, m: nat)
    requires m <= |n|
    ensures s <= n[..m] ==> s <= n
  {
    assert s <= n[..m] ==> s == n[..m][..|s|] == n[..|s|];
  }

  lemma StillFree(pats: seq<Name>, n: Name, m: nat)
    requires FreeName(pats, n) && 0 < m <= |n|
    requires forall i :: 0 <= i < |pats| ==> !(n[..m] <= Stem(pats[i]))
    ensures FreeName(pats, n[..m])
  {
    forall i | 0 <= i < |pats| ensures !NameMatches(pats[i], n[..m]) {
      assert !NameMatches(pats[i], n);
      PrefixGrows(Stem(pats[i]), n, m);
    }
  }

  lemma NameFreeExact(pats: seq<Name>)
    ensures NameFree(pats) <==> exists n :: FreeName(pats, n)
  {
    if NameFree(pats) {
      if pats == [] {
        assert FreeName(pats, [101]);
      } else {
        var j, k :| 0 <= j < |pats| && 0 <= k <= |pats[j]| && FreeFrom(pats, Stem(pats[j]), k);
      }
    }
    if n :| FreeName(pats, n) {
      if pats != [] {
        FoundFree(pats, n);
      }
    }
  }

  lemma FoundFree(pats: seq<Name>, n: Name)
    requires pats != [] && FreeName(pats, n)
    ensures NameFree(pats)
  {
    var j, k := LongestStem(pats, n);
    var stem := Stem(pats[j]);
    assert n[..k] == stem[..k];
    if k == |n| {
      assert n[..k] == n;
    } else {
      StillFree(pats, n, k + 1);
      assert n[..k + 1] == stem[..k] + [n[k]];
      assert n[k] != 0;
    }
    assert FreeFrom(pats, stem, k);
  }

  // ---- addresses: one outside the bound prefixes -------------------------------------------------------

  /** x lies in the block, below the top, and in none of the intervals. */
  predicate InGap(block: Interval, top: nat, s: seq<Interval>, x: nat) {
    block.Has(x) && x < top && forall i :: 0 <= i < |s| ==> !s[i].Has(x)
  }

  /** A gap begins with the block or where an interval ends. */
  predicate SomeGap(block: Interval, top: nat, s: seq<Interval>) {
    InGap(block, top, s, block.start) || exists i :: 0 <= i < |s| && s[i].end.At? && InGap(block, top, s, s[i].end.v)
  }

  lemma {:induction false} GapBegins(block: Interval, top: nat, s: seq<Interval>, x: nat)
    requires InGap(block, top, s, x)
    ensures SomeGap(block, top, s)
    decreases x
  {
    if x != block.start {
      if InGap(block, top, s, x - 1) {
        GapBegins(block, top, s, x - 1);
      } else {
        var i :| 0 <= i < |s| && s[i].Has(x - 1);
        assert !s[i].Has(x);
        assert s[i].end == At(x);
      }
    }
  }

  lemma GapExact(block: Interval, top: nat, s: seq<Interval>)
    ensures SomeGap(block, top, s) <==> exists x: nat :: InGap(block, top, s, x)
  {
    if x: nat :| InGap(block, top, s, x) {
      GapBegins(block, top, s, x);
    }
  }

  function BlockOf(net: Ip): Interval
    requires IsNet(net)
  {
    Interval(Val(net.bytes), BlockEnd(net.bytes, net.ones))
  }

  function EndBlock(a: AddrSpec): Interval
    requires a.ip.AnyIp? || IsNet(a.ip)
  {
    if a.ip.Net? then BlockOf(a.ip) else Interval(0, Top)
  }

  function Width(v6: bool): nat {
    if v6 then 16 else 4
  }

  /** The bound prefixes of one family as intervals. */
  function BoundBlocks(bindings: seq<Binding>, v6: bool): seq<Interval>
    requires forall i :: 0 <= i < |bindings| ==> bindings[i].Valid()
  {
    if bindings == [] then []
    else
      var b, rest := bindings[0], BoundBlocks(bindings[1..], v6);
      assert b.Valid();
      match b
      case OfSource(ip) => if |ip.bytes| == Width(v6) then [BlockOf(ip)] + rest else rest
      case _ => rest
  }

  predicate SourceBinds(b: Binding, v6: bool, sets: SetFn, addr: seq<Byte>)
    requires b.Valid()
  {
    match b
    case OfSource(ip) => InNet(ip, addr)
    case OfSet(name, family) => family == v6 && sets(name, addr)
    case _ => false
  }

  predicate SourceBound(bindings: seq<Binding>, v6: bool, sets: SetFn, addr: seq<Byte>)
    requires forall i :: 0 <= i < |bindings| ==> bindings[i].Valid()
  {
    exists i :: 0 <= i < |bindings| && SourceBinds(bindings[i], v6, sets, addr)
  }

  predicate NoIpset(bindings: seq<Binding>, v6: bool) {
    forall i :: 0 <= i < |bindings| && bindings[i].OfSet? ==> bindings[i].v6 != v6
  }

  lemma {:induction false} BlocksExact(bindings: seq<Binding>, v6: bool, sets: SetFn, addr: seq<Byte>)
    requires ValidBindings(bindings) && NoIpset(bindings, v6) && |addr| == Width(v6)
    ensures SourceBound(bindings, v6, sets, addr) <==> Covers(BoundBlocks(bindings, v6), Val(addr))
  {
    if bindings != [] {
      var b, rest := bindings[0], bindings[1..];
      assert forall i :: 0 <= i < |rest| ==> rest[i] == bindings[i + 1];
      BlocksExact(rest, v6, sets, addr);
      BoundStep(bindings, v6, sets, addr);
      var s := BoundBlocks(bindings, v6);
      if b.OfSource? && |b.ip.bytes| == Width(v6) {
        IntervalExact(b.ip.bytes, b.ip.ones, addr);
        assert s[1..] == BoundBlocks(rest, v6);
        CoversHead(s, Val(addr));
      } else {
        assert s == BoundBlocks(rest, v6);
      }
    }
  }

  lemma BoundStep(bindings: seq<Binding>, v6: bool, sets: SetFn, addr: seq<Byte>)
    requires ValidBindings(bindings) && bindings != [] && ValidBindings(bindings[1..])
    ensures SourceBound(bindings, v6, sets, addr)
      <==> SourceBinds(bindings[0], v6, sets, addr) || SourceBound(bindings[1..], v6, sets, addr)
  {
    var rest := bindings[1..];
    if SourceBound(rest, v6, sets, addr) {
      var i :| 0 <= i < |rest| && SourceBinds(rest[i], v6, sets, addr);
      assert SourceBinds(bindings[i + 1], v6, sets, addr);
    }
    if SourceBound(bindings, v6, sets, addr) {
      var i :| 0 <= i < |bindings| && SourceBinds(bindings[i], v6, sets, addr);
      assert i > 0 ==> rest[i - 1] == bindings[i];
    }
  }

  predicate EndHas(a: AddrSpec, sets: SetFn, addr: seq<Byte>)
    requires a.ip.AnyIp? || IsNet(a.ip)
  {
    if a.setName != "" then sets(a.setName, addr) else a.ip.Net? ==> InNet(a.ip, addr)
  }

  /** Some address of the family lies in the endpoint and in no bound source. */
  ghost predicate ReachesOut(a: AddrSpec, bindings: seq<Binding>, v6: bool, sets: SetFn)
    requires (a.ip.AnyIp? || IsNet(a.ip)) && ValidBindings(bindings)
  {
    exists addr: seq<Byte> :: |addr| == Width(v6) && EndHas(a, sets, addr) && !SourceBound(bindings, v6, sets, addr)
  }

  /** The test: where no ipset is involved, a gap between the bound prefixes. */
  ghost predicate Reaches(a: AddrSpec, bindings: seq<Binding>, v6: bool, sets: SetFn)
    requires (a.ip.AnyIp? || IsNet(a.ip)) && ValidBindings(bindings)
  {
    if a.setName == "" && NoIpset(bindings, v6) then SomeGap(EndBlock(a), Pow2(8 * Width(v6)), BoundBlocks(bindings, v6))
    else ReachesOut(a, bindings, v6, sets)
  }

  lemma GapAddress(a: AddrSpec, bindings: seq<Binding>, v6: bool, sets: SetFn, addr: seq<Byte>)
    requires (a.ip.AnyIp? || IsNet(a.ip)) && (a.ip.Net? ==> |a.ip.bytes| == Width(v6)) && a.setName == ""
    requires ValidBindings(bindings) && NoIpset(bindings, v6) && |addr| == Width(v6)
    ensures InGap(EndBlock(a), Pow2(8 * Width(v6)), BoundBlocks(bindings, v6), Val(addr))
      <==> EndHas(a, sets, addr) && !SourceBound(bindings, v6, sets, addr)
  {
    ValBound(addr);
    BlocksExact(bindings, v6, sets, addr);
    if a.ip.Net? {
      IntervalExact(a.ip.bytes, a.ip.ones, addr);
    }
  }

  lemma ReachesExact(a: AddrSpec, bindings: seq<Binding>, v6: bool, sets: SetFn)
    requires (a.ip.AnyIp? || IsNet(a.ip)) && (a.ip.Net? ==> |a.ip.bytes| == Width(v6)) && ValidBindings(bindings)
    ensures Reaches(a, bindings, v6, sets) <==> ReachesOut(a, bindings, v6, sets)
  {
    if a.setName == "" && NoIpset(bindings, v6) {
      var block, top, s := EndBlock(a), Pow2(8 * Width(v6)), BoundBlocks(bindings, v6);
      GapExact(block, top, s);
      if x: nat :| InGap(block, top, s, x) {
        var addr := Encode(x, Width(v6));
        ValEncode(x, Width(v6));
        GapAddress(a, bindings, v6, sets, addr);
      }
      if addr: seq<Byte> :| |addr| == Width(v6) && EndHas(a, sets, addr) && !SourceBound(bindings, v6, sets, addr) {
        GapAddress(a, bindings, v6, sets, addr);
        assert InGap(block, top, s, Val(addr));
      }
    }
  }

  // ---- protocol and ports of an element ---------------------------------------------------------------

  /** Some port passes the ranges that speak about the protocol. */
  predicate SomePort(ports: seq<PortRange>, tcp: bool) {
    SomeSelects(ports, tcp) ==>
      exists i :: 0 <= i < |ports| && Selects(ports[i], tcp) && ports[i].lo <= ports[i].hi && ports[i].lo < 65536
  }

  lemma SomePortExact(ports: seq<PortRange>, tcp: bool)
    ensures SomePort(ports, tcp) <==> exists port :: 0 <= port < 65536 && PortsAdmit(ports, tcp, port)
  {
    if SomePort(ports, tcp) {
      if SomeSelects(ports, tcp) {
        var i :| 0 <= i < |ports| && Selects(ports[i], tcp) && ports[i].lo <= ports[i].hi && ports[i].lo < 65536;
        assert PortsAdmit(ports, tcp, ports[i].lo);
      } else {
        assert PortsAdmit(ports, tcp, 0);
      }
    }
  }

  predicate BothPorts(t: Template, tcp: bool) {
    SomePort(t.src.ports, tcp) && SomePort(t.dst.ports, tcp)
  }

  predicate Speaks(t: Template, tcp: bool) {
    SomeSelects(t.src.ports, tcp) || SomeSelects(t.dst.ports, tcp)
  }

  /** Some packet has the element's protocol and ports. */
  predicate ProtoLive(t: Template) {
    match t.proto
    case UnknownProto => false
    case Tcp => BothPorts(t, true)
    case Udp => BothPorts(t, false)
    case AnyProto =>
      || (t.src.ports == [] && t.dst.ports == [])
      || (Speaks(t, true) && BothPorts(t, true)) || (Speaks(t, false) && BothPorts(t, false))
    case _ => true
  }

  predicate ProtoPart(t: Template, p: Packet) {
    var r := RuleFor(Everything, t, t.src, p.v6);
    ProtoMatches(r, p) && PortsMatch(r, p) && IcmpMatches(r, p)
  }

  /** Sorting the port lists changes none of it. */
  lemma SortedPorts(t: Template, p: Packet)
    ensures ProtoPart(t, p) <==>
      && (if t.proto != AnyProto then ProtoNumber(t.proto) == Some(p.l4)
          else (t.src.ports == [] && t.dst.ports == []) || (IsPorted(p.l4) && Speaks(t, p.l4 == 6)))
      && (IsPorted(p.l4) ==> PortsAdmit(t.src.ports, p.l4 == 6, p.sport) && PortsAdmit(t.dst.ports, p.l4 == 6, p.dport))
      && (t.icmpType.Some? ==> p.icmpType == t.icmpType.value)
  {
    SortAdmits(t.src.ports, p.l4 == 6, p.sport);
    SortAdmits(t.dst.ports, p.l4 == 6, p.dport);
    SortMembers(t.src.ports);
    SortMembers(t.dst.ports);
  }

  lemma LiveIfMatched(t: Template, p: Packet)
    requires p.Valid() && ProtoPart(t, p)
    ensures ProtoLive(t)
  {
    SortedPorts(t, p);
    SomePortExact(t.src.ports, p.l4 == 6);
    SomePortExact(t.dst.ports, p.l4 == 6);
  }

  /** A packet that has them, with the given addresses and incoming interface. */
  function Arrival(v6: bool, name: Name, l4: Byte, src: seq<Byte>, dst: seq<Byte>, sport: nat, dport: nat, icmp: Byte): Packet {
    Packet(v6, name, [], l4, src, dst, sport, dport, icmp, CtNew, false, 2)
  }

  lemma PortedWitness(t: Template, tcp: bool) returns (sport: nat, dport: nat)
    requires BothPorts(t, tcp)
    ensures sport < 65536 && dport < 65536 && PortsAdmit(t.src.ports, tcp, sport) && PortsAdmit(t.dst.ports, tcp, dport)
  {
    SomePortExact(t.src.ports, tcp);
    SomePortExact(t.dst.ports, tcp);
    sport :| 0 <= sport < 65536 && PortsAdmit(t.src.ports, tcp, sport);
    dport :| 0 <= dport < 65536 && PortsAdmit(t.dst.ports, tcp, dport);
  }

  lemma LiveWitness(t: Template, v6: bool, name: Name, src: seq<Byte>, dst: seq<Byte>) returns (p: Packet)
    requires ProtoLive(t)
    ensures p.v6 == v6 && p.iif == name && p.oif == [] && p.src == src && p.dst == dst && p.sport < 65536 && p.dport < 65536
    ensures ProtoPart(t, p)
  {
    var icmp: Byte := if t.icmpType.Some? then t.icmpType.value else 0;
    var sport, dport, l4: Byte := 0, 0, 1;
    if t.proto == AnyProto {
      if t.src.ports != [] || t.dst.ports != [] {
        var tcp := Speaks(t, true) && BothPorts(t, true);
        sport, dport := PortedWitness(t, tcp);
        l4 := if tcp then 6 else 17;
      }
    } else {
      l4 := ProtoNumber(t.proto).value;
      if IsPorted(l4) {
        sport, dport := PortedWitness(t, l4 == 6);
      }
    }
    p := Arrival(v6, name, l4, src, dst, sport, dport, icmp);
    SortedPorts(t, p);
  }

  // ---- the layout ------------------------------------------------------------------------------------

  function AllBindings(zones: seq<Zone>): seq<Binding> {
    if zones == [] then [] else zones[0].bindings + AllBindings(zones[1..])
  }

  function IfaceNames(bindings: seq<Binding>): seq<Name> {
    if bindings == [] then []
    else (if bindings[0].OfIface? then [bindings[0].name] else []) + IfaceNames(bindings[1..])
  }

  predicate NoWhole(bindings: seq<Binding>) {
    forall i :: 0 <= i < |bindings| ==> !bindings[i].Everything?
  }

  lemma {:induction false} OutsideBindings(zones: seq<Zone>, sets: SetFn, p: Packet)
    requires ValidZones(zones)
    ensures ValidBindings(AllBindings(zones))
    ensures Outside(zones, sets, p) <==> !SomeBinding(AllBindings(zones), sets, p)
  {
    if zones != [] {
      ValidTail(zones);
      var rest := AllBindings(zones[1..]);
      OutsideBindings(zones[1..], sets, p);
      BindingsConcat(zones[0].bindings, rest, sets, p);
      assert forall i :: 0 < i < |zones| ==> zones[i] == zones[1..][i - 1];
      assert forall i :: 0 <= i < |zones[1..]| ==> zones[1..][i] == zones[i + 1];
    }
  }

  lemma BindingsConcat(a: seq<Binding>, b: seq<Binding>, sets: SetFn, p: Packet)
    requires ValidBindings(a) && ValidBindings(b)
    ensures ValidBindings(a + b)
    ensures SomeBinding(a + b, sets, p) <==> SomeBinding(a, sets, p) || SomeBinding(b, sets, p)
  {
    var all := a + b;
    assert forall i :: 0 <= i < |a| ==> all[i] == a[i];
    assert forall i :: 0 <= i < |b| ==> all[|a| + i] == b[i];
    if SomeBinding(all, sets, p) {
      var i :| 0 <= i < |all| && BindingMatches(all[i], sets, p);
      assert i >= |a| ==> all[i] == b[i - |a|];
    }
  }

  /** A packet satisfies no binding exactly when its source and its interface each satisfy none. */
  lemma {:induction false} BindingParts(bindings: seq<Binding>, sets: SetFn, p: Packet)
    requires ValidBindings(bindings) && p.Valid() && p.iif != []
    ensures !SomeBinding(bindings, sets, p)
      <==> NoWhole(bindings) && FreeName(IfaceNames(bindings), p.iif) && !SourceBound(bindings, p.v6, sets, p.src)
  {
    if bindings != [] {
      SomeBindingStep(bindings, sets, p);
      BoundStep(bindings, p.v6, sets, p.src);
      BindingParts(bindings[1..], sets, p);
      FreeStep(bindings, p.iif);
      assert forall i :: 0 < i < |bindings| ==> bindings[i] == bindings[1..][i - 1];
      assert NoWhole(bindings) <==> !bindings[0].Everything? && NoWhole(bindings[1..]) by {
        assert forall i :: 0 <= i < |bindings[1..]| ==> bindings[1..][i] == bindings[i + 1];
      }
    }
  }

  lemma FreeStep(bindings: seq<Binding>, n: Name)
    requires bindings != []
    ensures FreeName(IfaceNames(bindings), n)
      <==> FreeName(IfaceNames(bindings[1..]), n) && (bindings[0].OfIface? ==> !NameMatches(bindings[0].name, n))
  {
    if bindings[0].OfIface? {
      FreeCons(bindings[0].name, IfaceNames(bindings[1..]), n);
    } else {
      assert IfaceNames(bindings) == IfaceNames(bindings[1..]);
    }
  }

  lemma FreeCons(pat: Name, rest: seq<Name>, n: Name)
    ensures FreeName([pat] + rest, n) <==> FreeName(rest, n) && !NameMatches(pat, n)
  {
    var pats := [pat] + rest;
    assert pats[0] == pat && forall i :: 0 <= i < |rest| ==> pats[i + 1] == rest[i];
    if FreeName(pats, n) {
      assert !NameMatches(pats[0], n);
      forall i | 0 <= i < |rest| ensures !NameMatches(rest[i], n) {
        assert !NameMatches(pats[i + 1], n);
      }
    }
    if FreeName(rest, n) && !NameMatches(pat, n) {
      forall i | 0 <= i < |pats| ensures !NameMatches(pats[i], n) {
        assert i > 0 ==> pats[i] == rest[i - 1];
      }
    }
  }

  /** The element matches something that reaches no active zone, as far as protocol and addresses go. */
  ghost predicate ElementActs(t: Template, bindings: seq<Binding>, v6: bool, sets: SetFn)
    requires t.Valid() && ValidBindings(bindings)
  {
    t.Covers(v6) && ProtoLive(t) && Reaches(t.src, bindings, v6, sets) && Reaches(t.dst, [], v6, sets)
  }

  /** The test on the layout: no active zone takes everything, some interface name is free, and
      some element of the default zone acts beyond the bound sources. */
  ghost predicate LayoutActs(bindings: seq<Binding>, fallback: seq<Template>, v6: bool, sets: SetFn)
    requires ValidBindings(bindings) && ValidTemplates(fallback)
  {
    && NoWhole(bindings) && NameFree(IfaceNames(bindings))
    && exists i :: 0 <= i < |fallback| && ElementActs(fallback[i], bindings, v6, sets)
  }

  lemma MatchParts(t: Template, sets: SetFn, p: Packet)
    requires t.Valid() && p.Valid()
    ensures TemplateMatches(t, sets, p)
      <==> t.Covers(p.v6) && ProtoPart(t, p) && EndHas(t.src, sets, p.src) && EndHas(t.dst, sets, p.dst)
  {
    if t.Covers(p.v6) {
      CanonEndExact(t.src, p.v6, sets, p.src);
      CanonEndExact(t.dst, p.v6, sets, p.dst);
    }
  }

  ghost predicate ActsOn(t: Template, active: seq<Zone>, sets: SetFn, p: Packet)
    requires t.Valid() && ValidZones(active)
  {
    Outside(active, sets, p) && TemplateMatches(t, sets, p)
  }

  lemma ActingElement(t: Template, active: seq<Zone>, sets: SetFn, p: Packet)
    requires t.Valid() && ValidZones(active) && Arrives(p, p.v6) && ActsOn(t, active, sets, p)
    ensures var bindings := AllBindings(active);
      ValidBindings(bindings) && NoWhole(bindings) && NameFree(IfaceNames(bindings)) && ElementActs(t, bindings, p.v6, sets)
  {
    var bindings := AllBindings(active);
    OutsideBindings(active, sets, p);
    BindingParts(bindings, sets, p);
    NameFreeExact(IfaceNames(bindings));
    MatchParts(t, sets, p);
    LiveIfMatched(t, p);
    ReachesExact(t.src, bindings, p.v6, sets);
    ReachesExact(t.dst, [], p.v6, sets);
    assert !SourceBound([], p.v6, sets, p.dst);
  }

  lemma ActingPacket(t: Template, active: seq<Zone>, v6: bool, sets: SetFn) returns (p: Packet)
    requires t.Valid() && ValidZones(active) && ValidBindings(AllBindings(active))
    requires NoWhole(AllBindings(active)) && NameFree(IfaceNames(AllBindings(active)))
    requires ElementActs(t, AllBindings(active), v6, sets)
    ensures Arrives(p, v6) && ActsOn(t, active, sets, p)
  {
    var bindings := AllBindings(active);
    NameFreeExact(IfaceNames(bindings));
    ReachesExact(t.src, bindings, v6, sets);
    ReachesExact(t.dst, [], v6, sets);
    var name :| FreeName(IfaceNames(bindings), name);
    var src: seq<Byte> :| |src| == Width(v6) && EndHas(t.src, sets, src) && !SourceBound(bindings, v6, sets, src);
    var dst: seq<Byte> :| |dst| == Width(v6) && EndHas(t.dst, sets, dst) && !SourceBound([], v6, sets, dst);
    p := LiveWitness(t, v6, name, src, dst);
    MatchParts(t, sets, p);
    OutsideBindings(active, sets, p);
    BindingParts(bindings, sets, p);
  }

  // ---- main result --------------------------------------------------------------------------------------

  lemma {:induction false} NoElement(elems: seq<Template>, sets: SetFn, p: Packet)
    requires ValidTemplates(elems)
    ensures FirstElement(elems, sets, p).None? <==> forall i :: 0 <= i < |elems| ==> !TemplateMatches(elems[i], sets, p)
  {
    if elems != [] {
      assert forall i :: 0 < i < |elems| ==> elems[i] == elems[1..][i - 1];
      assert forall i :: 0 <= i < |elems[1..]| ==> elems[1..][i] == elems[i + 1];
      NoElement(elems[1..], sets, p);
    }
  }

  /** The flat list and firewalld decide the packet alike. */
  ghost predicate Alike(active: seq<Zone>, fallback: seq<Template>, now: int, sets: SetFn, p: Packet)
    requires ValidZones(active) && ValidTemplates(fallback)
  {
    var rules := FlatRules(active, p.v6);
    rules.Ok? && Listed(rules.value)
    && Decide(rules.value, p.v6, In, now, sets, p) == DispatchOrDefault(active, fallback, sets, p)
  }

  lemma AlikeUnlessActing(zones: seq<Zone>, defaultZone: string, now: int, sets: SetFn, p: Packet)
    requires ValidZones(zones) && Accepted(zones, defaultZone).Ok? && p.Valid()
    requires PatternsApart(Accepted(zones, defaultZone).value)
    requires FlatRules(Accepted(zones, defaultZone).value, p.v6).Ok?
    ensures var active, fallback := Accepted(zones, defaultZone).value, DefaultElements(zones, defaultZone);
      Alike(active, fallback, now, sets, p) <==> forall i :: 0 <= i < |fallback| ==> !ActsOn(fallback[i], active, sets, p)
  {
    var active, fallback := Accepted(zones, defaultZone).value, DefaultElements(zones, defaultZone);
    ZonesFlattened(zones, defaultZone, now, sets, p);
    NoElement(fallback, sets, p);
    if Outside(active, sets, p) {
      NoZone(active, sets, p);
    }
  }

  /** Where zones are apart, the flat list decides every arriving packet of a family like firewalld
      with its fallback exactly when the layout fails the test. */
  lemma FallbackIff(zones: seq<Zone>, defaultZone: string, v6: bool, now: int, sets: SetFn)
    requires ValidZones(zones) && Accepted(zones, defaultZone).Ok?
    requires PatternsApart(Accepted(zones, defaultZone).value)
    requires FlatRules(Accepted(zones, defaultZone).value, v6).Ok?
    ensures var active, fallback := Accepted(zones, defaultZone).value, DefaultElements(zones, defaultZone);
      && ValidBindings(AllBindings(active))
      && ((forall p: Packet :: Arrives(p, v6) ==> Alike(active, fallback, now, sets, p))
          <==> !LayoutActs(AllBindings(active), fallback, v6, sets))
  {
    var active, fallback := Accepted(zones, defaultZone).value, DefaultElements(zones, defaultZone);
    AllValid(active);
    forall p: Packet | Arrives(p, v6)
      ensures Alike(active, fallback, now, sets, p) <==> forall i :: 0 <= i < |fallback| ==> !ActsOn(fallback[i], active, sets, p)
    {
      AlikeUnlessActing(zones, defaultZone, now, sets, p);
    }
    if LayoutActs(AllBindings(active), fallback, v6, sets) {
      var i :| 0 <= i < |fallback| && ElementActs(fallback[i], AllBindings(active), v6, sets);
      var p := ActingPacket(fallback[i], active, v6, sets);
      assert !Alike(active, fallback, now, sets, p);
    } else {
      forall p: Packet | Arrives(p, v6) ensures Alike(active, fallback, now, sets, p) {
        forall i | 0 <= i < |fallback| ensures !ActsOn(fallback[i], active, sets, p) {
          if ActsOn(fallback[i], active, sets, p) {
            ActingElement(fallback[i], active, sets, p);
          }
        }
      }
    }
  }

  lemma {:induction false} AllValid(zones: seq<Zone>)
    requires ValidZones(zones)
    ensures ValidBindings(AllBindings(zones))
  {
    if zones != [] {
      ValidTail(zones);
      AllValid(zones[1..]);
    }
  }

  // ---- zones bound to interfaces only ------------------------------------------------------------------

  predicate IfacesOnly(bindings: seq<Binding>) {
    forall i :: 0 <= i < |bindings| ==> bindings[i].OfIface?
  }

  lemma EndReaches(a: AddrSpec, bindings: seq<Binding>, v6: bool, sets: SetFn)
    requires (a.ip.AnyIp? || IsNet(a.ip)) && (a.ip.Net? ==> |a.ip.bytes| == Width(v6)) && a.setName == ""
    requires ValidBindings(bindings) && IfacesOnly(bindings)
    ensures Reaches(a, bindings, v6, sets)
  {
    var addr := if a.ip.Net? then a.ip.bytes else Zeros(Width(v6));
    assert EndHas(a, sets, addr) && !SourceBound(bindings, v6, sets, addr);
    ReachesExact(a, bindings, v6, sets);
  }

  /** There the test is about protocol, ports and interface names alone. */
  lemma InterfacesOnly(t: Template, bindings: seq<Binding>, v6: bool, sets: SetFn)
    requires t.Valid() && t.Covers(v6) && t.src.setName == t.dst.setName == ""
    requires ValidBindings(bindings) && IfacesOnly(bindings)
    ensures ElementActs(t, bindings, v6, sets) <==> ProtoLive(t)
  {
    EndReaches(t.src, bindings, v6, sets);
    EndReaches(t.dst, [], v6, sets);
  }

  /** The pattern "+" leaves no name free. */
  lemma PlusTakesAll(pats: seq<Name>)
    requires [PLUS] in pats
    ensures !NameFree(pats)
  {
    NameFreeExact(pats);
    var i :| 0 <= i < |pats| && pats[i] == [PLUS];
    forall n ensures !FreeName(pats, n) {
      assert pats[i][..0] <= n;
      assert NameMatches(pats[i], n);
    }
  }

  // ---- a layout where it is noticed ---------------------------------------------------------------------

  const ETH1: Name := [101, 116, 104, 49]

  /** Port 22 over tcp, for both families. */
  const SSH_ELEMENT: Template :=
    Template(Allow, LogNone, Tcp, None, AddrSpec(AnyIp, [], ""), AddrSpec(AnyIp, [PortRange(22, 22, TcpPort)], ""), true, true, "")

  const PUBLIC: Zone := Zone("public", [OfIface(ETH0)], [SSH_ELEMENT])

  function SshPacket(src: seq<Byte>, dst: seq<Byte>): Packet {
    Arrival(false, ETH1, 6, src, dst, 1000, 22, 0)
  }

  /** A default zone "public" that is bound to eth0 and opens ssh: firewalld accepts ssh on eth1,
      the imported list leaves it to the policy. */
  lemma DefaultZoneMissed(now: int, sets: SetFn, src: seq<Byte>, dst: seq<Byte>)
    requires |src| == |dst| == 4
    ensures var zones, p := [PUBLIC], SshPacket(src, dst);
      && ValidZones(zones) && Accepted(zones, "public") == Ok(zones) && FlatRules(zones, false).Ok?
      && DispatchOrDefault(zones, DefaultElements(zones, "public"), sets, p) == Some(Allow)
      && Listed(FlatRules(zones, false).value)
      && Decide(FlatRules(zones, false).value, false, In, now, sets, p) == None
  {
    var zones, p := [PUBLIC], SshPacket(src, dst);
    PublicAccepted();
    ElsewhereThanPublic(sets, src, dst);
    SshDefault(sets, src, dst);
    UnboundTraffic(zones, "public", now, sets, p);
  }

  lemma PublicAccepted()
    ensures ValidZone(PUBLIC) && ValidZones([PUBLIC]) && ValidTemplates([SSH_ELEMENT])
    ensures Accepted([PUBLIC], "public") == Ok([PUBLIC]) && FlatRules([PUBLIC], false).Ok?
  {
    var zones, b, t := [PUBLIC], OfIface(ETH0), SSH_ELEMENT;
    AllBound(zones, "public", BoundCount(zones));
    assert ExpandOne(b, t, false).Ok?;
    assert [b][1..] == [] && [t][1..] == [] && zones[1..] == [];
    assert Expand([b], t, false).Ok?;
    assert ZoneRules([b], [t], false).Ok?;
  }

  lemma ElsewhereThanPublic(sets: SetFn, src: seq<Byte>, dst: seq<Byte>)
    requires ValidZone(PUBLIC)
    ensures !InZone(PUBLIC, sets, SshPacket(src, dst))
  {
    assert ETH0[3] != ETH1[3];
    assert !NameMatches(ETH0, ETH1);
    assert !BindingMatches(PUBLIC.bindings[0], sets, SshPacket(src, dst));
  }

  lemma SshDefault(sets: SetFn, src: seq<Byte>, dst: seq<Byte>)
    requires |src| == |dst| == 4 && ValidZones([PUBLIC]) && ValidTemplates([SSH_ELEMENT])
    requires !InZone(PUBLIC, sets, SshPacket(src, dst))
    ensures DispatchOrDefault([PUBLIC], DefaultElements([PUBLIC], "public"), sets, SshPacket(src, dst)) == Some(Allow)
  {
    DefaultOfOne(PUBLIC);
    SshFirst(sets, SshPacket(src, dst));
    FallbackDecides(PUBLIC, [SSH_ELEMENT], sets, SshPacket(src, dst));
  }

  lemma SshFirst(sets: SetFn, p: Packet)
    requires p.Valid() && p.l4 == 6 && p.dport == 22 && ValidTemplates([SSH_ELEMENT])
    ensures FirstElement([SSH_ELEMENT], sets, p) == Some(SSH_ELEMENT.action)
  {
    SshMatches(sets, p);
    FirstMatching([SSH_ELEMENT], sets, p);
  }

  lemma FallbackDecides(z: Zone, fallback: seq<Template>, sets: SetFn, p: Packet)
    requires ValidZones([z]) && ValidZone(z) && ValidTemplates(fallback) && !InZone(z, sets, p)
    ensures DispatchOrDefault([z], fallback, sets, p) == FirstElement(fallback, sets, p)
  {
    assert Outside([z], sets, p);
  }

  lemma DefaultOfOne(z: Zone)
    requires ValidZones([z])
    ensures DefaultElements([z], z.name) == z.elems
  {
  }

  lemma FirstMatching(elems: seq<Template>, sets: SetFn, p: Packet)
    requires ValidTemplates(elems) && elems != [] && elems[0].Valid() && TemplateMatches(elems[0], sets, p)
    ensures FirstElement(elems, sets, p) == Some(elems[0].action)
  {
  }

  lemma SshMatches(sets: SetFn, p: Packet)
    requires p.Valid() && p.l4 == 6 && p.dport == 22
    ensures SSH_ELEMENT.Valid() && TemplateMatches(SSH_ELEMENT, sets, p)
  {
    SshPorts();
    SortedPorts(SSH_ELEMENT, p);
    assert !SomeSelects(SSH_ELEMENT.src.ports, true);
    assert ProtoNumber(Tcp) == Some(6) && IsPorted(6);
    MatchParts(SSH_ELEMENT, sets, p);
  }

  lemma SshPorts()
    ensures PortsAdmit(SSH_ELEMENT.dst.ports, true, 22)
  {
    var ports := SSH_ELEMENT.dst.ports;
    assert Selects(ports[0], true) && ports[0].lo <= 22 <= ports[0].hi;
  }
}
