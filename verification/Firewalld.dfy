/** firewalld zone dispatch flattened into one rule list. */
module Firewalld {
  import opened Bits
  import opened Bytes
  import opened Cidr
  import opened Rules
  import opened PortOrder
  import opened FirstMatch
  import opened Merge

  // ---- addresses ------------------------------------------------------------------------------

  predicate IsNet(ip: Ip) {
    ip.Net? && ip.Valid() && (|ip.bytes| == 4 || |ip.bytes| == 16)
  }

  /** Same family, equal or wider prefix, and the narrower network address inside. */
  predicate NetContains(a: Ip, b: Ip)
    requires IsNet(a) && IsNet(b)
  {
    |a.bytes| == |b.bytes| && a.ones <= b.ones && InPrefix(a.bytes, a.ones, b.bytes)
  }

  predicate InNet(a: Ip, addr: seq<Byte>)
    requires IsNet(a)
  {
    InPrefix(a.bytes, a.ones, addr)
  }

  /** Containment of prefixes is containment of their addresses. */
  lemma ContainsAddresses(a: Ip, b: Ip, addr: seq<Byte>)
    requires IsNet(a) && IsNet(b) && NetContains(a, b) && InNet(b, addr)
    ensures InNet(a, addr)
  {
    WiderBlock(Val(addr), Val(b.bytes), 8 * |b.bytes| - b.ones, 8 * |a.bytes| - a.ones);
  }

  lemma WiderBlock(x: nat, y: nat, narrow: nat, wide: nat)
    requires narrow <= wide && Shr(x, narrow) == Shr(y, narrow)
    ensures Shr(x, wide) == Shr(y, wide)
  {
    ShrShr(x, narrow, wide - narrow);
    ShrShr(y, narrow, wide - narrow);
  }

  /** Two prefixes are nested or disjoint. */
  lemma NestedOrDisjoint(a: Ip, b: Ip, addr: seq<Byte>)
    requires IsNet(a) && IsNet(b) && !NetContains(a, b) && !NetContains(b, a)
    ensures !(InNet(a, addr) && InNet(b, addr))
  {
    if InNet(a, addr) && |a.bytes| == |b.bytes| {
      var ka, kb := 8 * |a.bytes| - a.ones, 8 * |b.bytes| - b.ones;
      if a.ones <= b.ones && Shr(Val(addr), kb) == Shr(Val(b.bytes), kb) {
        WiderBlock(Val(addr), Val(b.bytes), kb, ka);
      } else if b.ones <= a.ones && Shr(Val(addr), kb) == Shr(Val(b.bytes), kb) {
        WiderBlock(Val(addr), Val(a.bytes), ka, kb);
      }
    }
  }

  // ---- bindings, templates and zones ----------------------------------------------------------

  /** One membership condition of a zone; conditions are alternatives. */
  datatype Binding =
    | Everything
    | OfIface(name: Name)
    | OfSource(ip: Ip)
    | OfSet(setName: string, v6: bool)
  {
    predicate Valid() {
      (OfIface? ==> name != [] && |name| <= 16) && (OfSource? ==> IsNet(ip)) && (OfSet? ==> setName != "")
    }

    /** Whether packets of a family can satisfy it. */
    predicate Covers(family: bool) {
      match this
      case OfSource(ip) => ip.Net? && |ip.bytes| == if family then 16 else 4
      case OfSet(_, v6) => v6 == family
      case _ => true
    }
  }

  predicate BindingMatches(b: Binding, sets: SetFn, p: Packet)
    requires b.Valid()
  {
    match b
    case Everything => true
    case OfIface(name) => IfaceMatches(name, p.iif)
    case OfSource(ip) => InNet(ip, p.src)
    case OfSet(name, v6) => p.v6 == v6 && sets(name, p.src)
  }

  /** A zone element before expansion; AnyIp with no set name means no such endpoint. */
  datatype Template = Template(
    action: Action, log: LogType, proto: Proto, icmpType: Option<Byte>,
    src: AddrSpec, dst: AddrSpec, v4: bool, v6: bool, comment: string)
  {
    predicate Covers(family: bool) {
      if family then v6 else v4
    }

    predicate Valid() {
      EndValid(src, v4, v6) && EndValid(dst, v4, v6)
    }
  }

  /** An endpoint has an address or a set, and an address limits the families to its own. */
  predicate EndValid(a: AddrSpec, v4: bool, v6: bool) {
    && (a.ip.AnyIp? || IsNet(a.ip)) && (a.setName != "" ==> a.ip.AnyIp?)
    && (a.ip.Net? ==> (v4 ==> |a.ip.bytes| == 4) && (v6 ==> |a.ip.bytes| == 16))
  }

  datatype Zone = Zone(name: string, bindings: seq<Binding>, elems: seq<Template>)

  ghost predicate ValidZone(z: Zone) {
    && (forall i :: 0 <= i < |z.bindings| ==> z.bindings[i].Valid())
    && (forall i :: 0 <= i < |z.elems| ==> z.elems[i].Valid())
  }

  // ---- one element under one binding ----------------------------------------------------------

  datatype Joined = Endpoint(a: AddrSpec) | Dead | Clash

  /** The element's source and the zone's source must both hold. */
  function JoinSource(b: Binding, src: AddrSpec): Joined
    requires b.Valid() && (src.ip.AnyIp? || IsNet(src.ip))
  {
    match b
    case OfSource(ip) =>
      if src.setName != "" then Clash
      else if src.ip.AnyIp? then Endpoint(src.(ip := ip))
      else if NetContains(ip, src.ip) then Endpoint(src)
      else if NetContains(src.ip, ip) then Endpoint(src.(ip := ip))
      else Dead
    case OfSet(name, _) =>
      if src.ip.AnyIp? && src.setName == "" then Endpoint(src.(setName := name))
      else if src.setName == name then Endpoint(src)
      else Clash
    case _ => Endpoint(src)
  }

  /** Prefixes of length zero are spelled as the wildcard. */
  function CanonEnd(a: AddrSpec): AddrSpec {
    AddrSpec(if a.ip.Net? && a.ip.ones == 0 then AnyIp else a.ip, SortPorts(a.ports), a.setName)
  }

  function RuleFor(b: Binding, t: Template, src: AddrSpec, v6: bool): Rule {
    Rule("", t.action, In, NoRouteDir, if b.OfIface? then b.name else [], [], t.proto, t.icmpType,
         CanonEnd(src), CanonEnd(t.dst), "", "", t.log, t.comment, 0, false, v6)
  }

  /** The rules of one family that an element leaves under one binding. */
  function ExpandOne(b: Binding, t: Template, v6: bool): Result<seq<Rule>>
    requires b.Valid() && t.Valid()
  {
    match JoinSource(b, t.src)
    case Clash => Err
    case Dead => Ok([])
    case Endpoint(src) =>
      var has4, has6 := t.Covers(false) && b.Covers(false), t.Covers(true) && b.Covers(true);
      if !has4 && !has6 then Err
      else if if v6 then has6 else has4 then Ok([RuleFor(b, t, src, v6)])
      else Ok([])
  }

  function Append(a: Result<seq<Rule>>, b: Result<seq<Rule>>): Result<seq<Rule>> {
    if a.Ok? && b.Ok? then Ok(a.value + b.value) else Err
  }

  function Expand(bindings: seq<Binding>, t: Template, v6: bool): Result<seq<Rule>>
    requires t.Valid() && forall i :: 0 <= i < |bindings| ==> bindings[i].Valid()
  {
    if bindings == [] then Ok([])
    else Append(ExpandOne(bindings[0], t, v6), Expand(bindings[1..], t, v6))
  }

  /** The packets an element is about. */
  predicate TemplateMatches(t: Template, sets: SetFn, p: Packet)
    requires t.Valid()
  {
    t.Covers(p.v6) && Matches(RuleFor(Everything, t, t.src, p.v6), p.v6, sets, p)
  }

  lemma CanonEndExact(a: AddrSpec, v6: bool, sets: SetFn, addr: seq<Byte>)
    requires (a.ip.AnyIp? || IsNet(a.ip)) && |addr| == (if v6 then 16 else 4)
    requires a.ip.Net? ==> |a.ip.bytes| == |addr|
    ensures CanonEnd(a).ip.Valid()
    ensures AddrMatches(CanonEnd(a), sets, addr)
       <==> if a.setName != "" then sets(a.setName, addr) else a.ip.Net? ==> InNet(a.ip, addr)
  {
    if a.ip.Net? && a.ip.ones == 0 {
      ValBound(a.ip.bytes);
      ValBound(addr);
      LowAll(Val(a.ip.bytes), 8 * |addr|);
      LowAll(Val(addr), 8 * |addr|);
    }
  }

  /** The joined source holds exactly when both sources do. */
  lemma JoinExact(b: Binding, t: Template, sets: SetFn, p: Packet)
    requires b.Valid() && t.Valid() && !b.Everything? && !b.OfIface?
    requires p.Valid() && t.Covers(p.v6)
    requires JoinSource(b, t.src).Endpoint? ==> b.Covers(p.v6)
    ensures match JoinSource(b, t.src)
      case Endpoint(src) =>
        && src.ports == t.src.ports
        && (CanonEnd(src).ip.Valid() && CanonEnd(t.src).ip.Valid())
        && (AddrMatches(CanonEnd(src), sets, p.src) <==>
              BindingMatches(b, sets, p) && AddrMatches(CanonEnd(t.src), sets, p.src))
      case Dead => CanonEnd(t.src).ip.Valid() && !(BindingMatches(b, sets, p) && AddrMatches(CanonEnd(t.src), sets, p.src))
      case Clash => true
  {
    CanonEndExact(t.src, p.v6, sets, p.src);
    match JoinSource(b, t.src)
    case Endpoint(src) =>
      CanonEndExact(src, p.v6, sets, p.src);
      if b.OfSource? && t.src.ip.Net? {
        NestedJoin(b.ip, t.src.ip, p.src);
      }
    case Dead => NestedOrDisjoint(b.ip, t.src.ip, p.src);
    case Clash =>
  }

  lemma NestedJoin(a: Ip, b: Ip, addr: seq<Byte>)
    requires IsNet(a) && IsNet(b)
    ensures NetContains(a, b) && InNet(b, addr) ==> InNet(a, addr)
    ensures NetContains(b, a) && InNet(a, addr) ==> InNet(b, addr)
  {
    if NetContains(a, b) && InNet(b, addr) {
      ContainsAddresses(a, b, addr);
    }
    if NetContains(b, a) && InNet(a, addr) {
      ContainsAddresses(b, a, addr);
    }
  }

  lemma UncoveredBinding(b: Binding, sets: SetFn, p: Packet)
    requires b.Valid() && p.Valid() && !b.Covers(p.v6)
    ensures !BindingMatches(b, sets, p)
  {
  }

  /** Source and interface of the made rule hold exactly when binding and element do. */
  lemma RuleForExact(b: Binding, t: Template, src: AddrSpec, sets: SetFn, p: Packet)
    requires b.Valid() && t.Valid() && p.Valid() && t.Covers(p.v6) && b.Covers(p.v6)
    requires JoinSource(b, t.src) == Endpoint(src)
    ensures RuleFor(b, t, src, p.v6).ValidAddrs()
    ensures Matches(RuleFor(b, t, src, p.v6), p.v6, sets, p) <==> BindingMatches(b, sets, p) && TemplateMatches(t, sets, p)
  {
    CanonEndExact(t.src, p.v6, sets, p.src);
    CanonEndExact(t.dst, p.v6, sets, p.dst);
    var r, r0 := RuleFor(b, t, src, p.v6), RuleFor(Everything, t, t.src, p.v6);
    if b.OfSource? || b.OfSet? {
      JoinExact(b, t, sets, p);
    }
    assert r.src.ports == r0.src.ports && r.proto == r0.proto && r.dst == r0.dst;
    assert ProtoMatches(r, p) == ProtoMatches(r0, p) && PortsMatch(r, p) == PortsMatch(r0, p);
  }

  ghost predicate Listed(rules: seq<Rule>) {
    Imported(rules) && forall i :: 0 <= i < |rules| ==> rules[i].dir == In
  }

  lemma DecideOne(r: Rule, v6: bool, now: int, sets: SetFn, p: Packet)
    requires r.ValidAddrs() && r.dir == In && !r.disabled && r.expiresAt == 0
    ensures Listed([r])
    ensures Decide([r], v6, In, now, sets, p) == if Matches(r, v6, sets, p) then Some(r.action) else None
  {
    assert [r][1..] == [];
  }

  function When(b: bool, a: Action): Option<Action> {
    if b then Some(a) else None
  }

  lemma ExpandOneExact(b: Binding, t: Template, now: int, sets: SetFn, p: Packet)
    requires b.Valid() && t.Valid() && p.Valid() && ExpandOne(b, t, p.v6).Ok?
    ensures var rules := ExpandOne(b, t, p.v6).value;
      && Listed(rules)
      && Decide(rules, p.v6, In, now, sets, p) == When(BindingMatches(b, sets, p) && TemplateMatches(t, sets, p), t.action)
  {
    match JoinSource(b, t.src)
    case Clash =>
    case Dead =>
      if t.Covers(p.v6) {
        JoinExact(b, t, sets, p);
        CanonEndExact(t.src, p.v6, sets, p.src);
      }
    case Endpoint(src) =>
      if !b.Covers(p.v6) {
        UncoveredBinding(b, sets, p);
      } else if t.Covers(p.v6) {
        RuleForExact(b, t, src, sets, p);
        DecideOne(RuleFor(b, t, src, p.v6), p.v6, now, sets, p);
      }
  }

  predicate SomeBinding(bindings: seq<Binding>, sets: SetFn, p: Packet)
    requires forall i :: 0 <= i < |bindings| ==> bindings[i].Valid()
  {
    exists i :: 0 <= i < |bindings| && BindingMatches(bindings[i], sets, p)
  }

  ghost predicate ValidBindings(bindings: seq<Binding>) {
    forall i :: 0 <= i < |bindings| ==> bindings[i].Valid()
  }

  lemma SomeBindingStep(bindings: seq<Binding>, sets: SetFn, p: Packet)
    requires ValidBindings(bindings) && bindings != []
    ensures ValidBindings(bindings[1..])
    ensures SomeBinding(bindings, sets, p) <==> BindingMatches(bindings[0], sets, p) || SomeBinding(bindings[1..], sets, p)
  {
    assert forall i :: 0 < i < |bindings| ==> bindings[i] == bindings[1..][i - 1];
    if SomeBinding(bindings[1..], sets, p) {
      var i :| 0 <= i < |bindings[1..]| && BindingMatches(bindings[1..][i], sets, p);
      assert BindingMatches(bindings[i + 1], sets, p);
    }
  }

  lemma ListedConcat(a: seq<Rule>, b: seq<Rule>)
    requires Listed(a) && Listed(b)
    ensures Listed(a + b)
  {
  }

  /** All bindings together: an element acts on the zone's packets that it matches. */
  lemma {:induction false} ExpandExact(bindings: seq<Binding>, t: Template, now: int, sets: SetFn, p: Packet)
    requires ValidBindings(bindings) && t.Valid() && p.Valid() && Expand(bindings, t, p.v6).Ok?
    ensures var rules := Expand(bindings, t, p.v6).value;
      && Listed(rules)
      && Decide(rules, p.v6, In, now, sets, p) == When(SomeBinding(bindings, sets, p) && TemplateMatches(t, sets, p), t.action)
  {
    if bindings != [] {
      SomeBindingStep(bindings, sets, p);
      ExpandOneExact(bindings[0], t, now, sets, p);
      ExpandExact(bindings[1..], t, now, sets, p);
      var a, b := ExpandOne(bindings[0], t, p.v6).value, Expand(bindings[1..], t, p.v6).value;
      DecideConcat(a, b, p.v6, In, now, sets, p);
      ListedConcat(a, b);
    }
  }

  // ---- zones ----------------------------------------------------------------------------------

  predicate InZone(z: Zone, sets: SetFn, p: Packet)
    requires ValidZone(z)
  {
    SomeBinding(z.bindings, sets, p)
  }

  ghost predicate ValidTemplates(elems: seq<Template>) {
    forall i :: 0 <= i < |elems| ==> elems[i].Valid()
  }

  /** The action of the first element, in file order, that matches. */
  function FirstElement(elems: seq<Template>, sets: SetFn, p: Packet): Option<Action>
    requires ValidTemplates(elems)
  {
    if elems == [] then None
    else if TemplateMatches(elems[0], sets, p) then Some(elems[0].action)
    else
      assert forall i :: 0 < i < |elems| ==> elems[i] == elems[1..][i - 1];
      FirstElement(elems[1..], sets, p)
  }

  function ZoneRules(bindings: seq<Binding>, elems: seq<Template>, v6: bool): Result<seq<Rule>>
    requires ValidBindings(bindings) && ValidTemplates(elems)
  {
    if elems == [] then Ok([])
    else
      assert forall i :: 0 < i < |elems| ==> elems[i] == elems[1..][i - 1];
      Append(Expand(bindings, elems[0], v6), ZoneRules(bindings, elems[1..], v6))
  }

  lemma {:induction false} ZoneExact(bindings: seq<Binding>, elems: seq<Template>, now: int, sets: SetFn, p: Packet)
    requires ValidBindings(bindings) && ValidTemplates(elems) && p.Valid() && ZoneRules(bindings, elems, p.v6).Ok?
    ensures var rules := ZoneRules(bindings, elems, p.v6).value;
      && Listed(rules)
      && Decide(rules, p.v6, In, now, sets, p)
         == if SomeBinding(bindings, sets, p) then FirstElement(elems, sets, p) else None
  {
    if elems != [] {
      assert forall i :: 0 < i < |elems| ==> elems[i] == elems[1..][i - 1];
      ExpandExact(bindings, elems[0], now, sets, p);
      ZoneExact(bindings, elems[1..], now, sets, p);
      var a, b := Expand(bindings, elems[0], p.v6).value, ZoneRules(bindings, elems[1..], p.v6).value;
      DecideConcat(a, b, p.v6, In, now, sets, p);
      ListedConcat(a, b);
    }
  }

  ghost predicate ValidZones(zones: seq<Zone>) {
    forall i :: 0 <= i < |zones| ==> ValidZone(zones[i])
  }

  lemma ValidTail(zones: seq<Zone>)
    requires ValidZones(zones) && zones != []
    ensures ValidZone(zones[0]) && ValidZones(zones[1..])
    ensures ValidBindings(zones[0].bindings) && ValidTemplates(zones[0].elems)
  {
    assert forall i :: 0 < i < |zones| ==> zones[i] == zones[1..][i - 1];
  }

  function FlatRules(zones: seq<Zone>, v6: bool): Result<seq<Rule>>
    requires ValidZones(zones)
  {
    if zones == [] then Ok([])
    else
      ValidTail(zones);
      Append(ZoneRules(zones[0].bindings, zones[0].elems, v6), FlatRules(zones[1..], v6))
  }

  /** Zone dispatch: the first zone that the packet belongs to, then its first matching element. */
  function Dispatch(zones: seq<Zone>, sets: SetFn, p: Packet): Option<Action>
    requires ValidZones(zones)
  {
    if zones == [] then None
    else
      ValidTail(zones);
      if InZone(zones[0], sets, p) then FirstElement(zones[0].elems, sets, p) else Dispatch(zones[1..], sets, p)
  }

  /** The packet belongs to no two zones of the list. */
  ghost predicate OneZone(zones: seq<Zone>, sets: SetFn, p: Packet)
    requires ValidZones(zones)
  {
    forall i, j :: 0 <= i < j < |zones| ==> !(InZone(zones[i], sets, p) && InZone(zones[j], sets, p))
  }

  lemma OneZoneTail(zones: seq<Zone>, sets: SetFn, p: Packet)
    requires ValidZones(zones) && zones != [] && OneZone(zones, sets, p)
    ensures ValidZones(zones[1..]) && OneZone(zones[1..], sets, p)
    ensures InZone(zones[0], sets, p) ==> Dispatch(zones[1..], sets, p) == None
    decreases |zones|
  {
    ValidTail(zones);
    var rest := zones[1..];
    assert forall i :: 0 <= i < |rest| ==> rest[i] == zones[i + 1];
    if InZone(zones[0], sets, p) {
      forall i | 0 <= i < |rest| ensures !InZone(rest[i], sets, p) {
        assert !(InZone(zones[0], sets, p) && InZone(zones[i + 1], sets, p));
      }
      NoZone(rest, sets, p);
    }
  }

  lemma {:induction false} NoZone(zones: seq<Zone>, sets: SetFn, p: Packet)
    requires ValidZones(zones) && forall i :: 0 <= i < |zones| ==> !InZone(zones[i], sets, p)
    ensures Dispatch(zones, sets, p) == None
  {
    if zones != [] {
      ValidTail(zones);
      assert forall i :: 0 <= i < |zones[1..]| ==> zones[1..][i] == zones[i + 1];
      NoZone(zones[1..], sets, p);
    }
  }

  /** Flattening: for a packet of at most one zone, first match over the flat list is zone dispatch. */
  lemma {:induction false} FlatExact(zones: seq<Zone>, now: int, sets: SetFn, p: Packet)
    requires ValidZones(zones) && p.Valid() && FlatRules(zones, p.v6).Ok? && OneZone(zones, sets, p)
    ensures var rules := FlatRules(zones, p.v6).value;
      Listed(rules) && Decide(rules, p.v6, In, now, sets, p) == Dispatch(zones, sets, p)
  {
    if zones != [] {
      ValidTail(zones);
      OneZoneTail(zones, sets, p);
      ZoneExact(zones[0].bindings, zones[0].elems, now, sets, p);
      FlatExact(zones[1..], now, sets, p);
      var a, b := ZoneRules(zones[0].bindings, zones[0].elems, p.v6).value, FlatRules(zones[1..], p.v6).value;
      DecideConcat(a, b, p.v6, In, now, sets, p);
      ListedConcat(a, b);
    }
  }

  // ---- which zones are active, and when they overlap -------------------------------------------

  /** The refusals of the pairwise check. */
  predicate Overlap(a: Binding, b: Binding)
    requires a.Valid() && b.Valid()
  {
    if a.OfIface? && b.OfIface? then a.name == b.name
    else if a.OfIface? || b.OfIface? then true
    else if !(a.Covers(false) && b.Covers(false)) && !(a.Covers(true) && b.Covers(true)) then false
    else if a.OfSource? && b.OfSource? then NetContains(a.ip, b.ip) || NetContains(b.ip, a.ip)
    else true
  }

  predicate ZonesOverlap(a: Zone, b: Zone)
    requires ValidZone(a) && ValidZone(b)
  {
    exists i, j :: 0 <= i < |a.bindings| && 0 <= j < |b.bindings| && Overlap(a.bindings[i], b.bindings[j])
  }

  ghost predicate OverlapFree(zones: seq<Zone>)
    requires ValidZones(zones)
  {
    forall i, j :: 0 <= i < j < |zones| ==> !ZonesOverlap(zones[i], zones[j])
  }

  /** Some interface name satisfies both patterns. */
  predicate PatternsMeet(a: Name, b: Name) {
    if Wildcard(a) && Wildcard(b) then a[..|a| - 1] <= b[..|b| - 1] || b[..|b| - 1] <= a[..|a| - 1]
    else if Wildcard(a) then a[..|a| - 1] <= b
    else if Wildcard(b) then b[..|b| - 1] <= a
    else a == b
  }

  lemma MeetIfShared(a: Name, b: Name, name: Name)
    requires NameMatches(a, name) && NameMatches(b, name)
    ensures PatternsMeet(a, b)
  {
    if Wildcard(a) && Wildcard(b) {
      var x, y := a[..|a| - 1], b[..|b| - 1];
      if |x| <= |y| {
        assert x == name[..|x|] && y == name[..|y|];
        assert name[..|y|][..|x|] == name[..|x|];
      } else {
        assert x == name[..|x|] && y == name[..|y|];
        assert name[..|x|][..|y|] == name[..|y|];
      }
    }
  }

  /** A pattern whose own text, or text before '+', can name an interface. */
  predicate Nameable(pat: Name) {
    ValidName(if Wildcard(pat) then pat[..|pat| - 1] else pat)
  }

  /** A name that both patterns match. */
  function SharedName(a: Name, b: Name): (name: Name)
    requires PatternsMeet(a, b) && Nameable(a) && Nameable(b)
    ensures ValidName(name) && NameMatches(a, name) && NameMatches(b, name)
  {
    if Wildcard(a) && Wildcard(b) then
      if a[..|a| - 1] <= b[..|b| - 1] then b[..|b| - 1] else a[..|a| - 1]
    else if Wildcard(a) then b
    else a
  }

  /** Bindings that pass the check can share a packet only through two interface patterns. */
  lemma DisjointBindings(a: Binding, b: Binding, sets: SetFn, p: Packet)
    requires a.Valid() && b.Valid() && p.Valid() && !Overlap(a, b)
    requires BindingMatches(a, sets, p) && BindingMatches(b, sets, p)
    ensures a.OfIface? && b.OfIface? && a.name != b.name && PatternsMeet(a.name, b.name)
  {
    if a.OfIface? && b.OfIface? {
      MeetIfShared(a.name, b.name, p.iif);
    } else {
      SourcesDisjoint(a, b, sets, p);
      assert false;
    }
  }

  lemma SourcesDisjoint(a: Binding, b: Binding, sets: SetFn, p: Packet)
    requires a.Valid() && b.Valid() && p.Valid() && !Overlap(a, b) && !(a.OfIface? && b.OfIface?)
    ensures !(BindingMatches(a, sets, p) && BindingMatches(b, sets, p))
  {
    if !a.Covers(p.v6) {
      UncoveredBinding(a, sets, p);
    } else if !b.Covers(p.v6) {
      UncoveredBinding(b, sets, p);
    } else {
      NestedOrDisjoint(a.ip, b.ip, p.src);
    }
  }

  /** No two zones hold interface patterns that share a name. */
  ghost predicate PatternsApart(zones: seq<Zone>) {
    forall i, j, m, n ::
      0 <= i < j < |zones| && 0 <= m < |zones[i].bindings| && 0 <= n < |zones[j].bindings|
      && zones[i].bindings[m].OfIface? && zones[j].bindings[n].OfIface?
      ==> !PatternsMeet(zones[i].bindings[m].name, zones[j].bindings[n].name)
  }

  /** When the patterns are apart as well, the check guarantees at most one zone per packet. */
  lemma AtMostOneZone(zones: seq<Zone>, sets: SetFn, p: Packet)
    requires ValidZones(zones) && OverlapFree(zones) && PatternsApart(zones) && p.Valid()
    ensures OneZone(zones, sets, p)
  {
    forall i, j | 0 <= i < j < |zones| ensures !(InZone(zones[i], sets, p) && InZone(zones[j], sets, p)) {
      if InZone(zones[i], sets, p) && InZone(zones[j], sets, p) {
        var m :| 0 <= m < |zones[i].bindings| && BindingMatches(zones[i].bindings[m], sets, p);
        var n :| 0 <= n < |zones[j].bindings| && BindingMatches(zones[j].bindings[n], sets, p);
        assert !ZonesOverlap(zones[i], zones[j]);
        DisjointBindings(zones[i].bindings[m], zones[j].bindings[n], sets, p);
        assert false;
      }
    }
  }

  ghost predicate NameableZones(zones: seq<Zone>) {
    forall i, m :: 0 <= i < |zones| && 0 <= m < |zones[i].bindings| && zones[i].bindings[m].OfIface?
      ==> Nameable(zones[i].bindings[m].name)
  }

  /** A packet that arrives on the named interface. */
  function ArrivingOn(name: Name): Packet {
    Packet(false, name, [], 6, Zeros(4), Zeros(4), 0, 0, 0, CtNew, false, 0)
  }

  /** The converse: interface patterns that meet put some packet into two zones, although the
      check passes, because it compares interface names for equality only. */
  lemma PatternsShareZones(zones: seq<Zone>, sets: SetFn, i: nat, j: nat, m: nat, n: nat)
    requires ValidZones(zones) && NameableZones(zones) && i < j < |zones|
    requires m < |zones[i].bindings| && n < |zones[j].bindings|
    requires zones[i].bindings[m].OfIface? && zones[j].bindings[n].OfIface?
    requires PatternsMeet(zones[i].bindings[m].name, zones[j].bindings[n].name)
    ensures var name := SharedName(zones[i].bindings[m].name, zones[j].bindings[n].name);
      ArrivingOn(name).Valid() && !OneZone(zones, sets, ArrivingOn(name))
  {
    var p := ArrivingOn(SharedName(zones[i].bindings[m].name, zones[j].bindings[n].name));
    assert BindingMatches(zones[i].bindings[m], sets, p);
    assert BindingMatches(zones[j].bindings[n], sets, p);
    assert InZone(zones[i], sets, p) && InZone(zones[j], sets, p);
  }

  /** Zones that pass the check assign every packet to at most one zone if and only if no two of
      them hold interface patterns that share a name. */
  lemma OneZoneExact(zones: seq<Zone>, sets: SetFn)
    requires ValidZones(zones) && NameableZones(zones) && OverlapFree(zones)
    ensures PatternsApart(zones) <==> forall p: Packet :: p.Valid() ==> OneZone(zones, sets, p)
  {
    if PatternsApart(zones) {
      forall p: Packet | p.Valid() ensures OneZone(zones, sets, p) {
        AtMostOneZone(zones, sets, p);
      }
    } else {
      var i, j, m, n :|
        0 <= i < j < |zones| && 0 <= m < |zones[i].bindings| && 0 <= n < |zones[j].bindings|
        && zones[i].bindings[m].OfIface? && zones[j].bindings[n].OfIface?
        && PatternsMeet(zones[i].bindings[m].name, zones[j].bindings[n].name);
      PatternsShareZones(zones, sets, i, j, m, n);
    }
  }

  // ---- the importer ---------------------------------------------------------------------------

  function BoundCount(zones: seq<Zone>): nat {
    if zones == [] then 0
    else BoundCount(zones[..|zones| - 1]) + if zones[|zones| - 1].bindings != [] then 1 else 0
  }

  /** Unbound zones are skipped, except the default zone when nothing at all is bound. */
  function ActiveZones(zones: seq<Zone>, defaultZone: string, bound: nat): Result<seq<Zone>> {
    if zones == [] then Ok([])
    else
      var n := |zones| - 1;
      var z := zones[n];
      match ActiveZones(zones[..n], defaultZone, bound)
      case Err => Err
      case Ok(active) =>
        if z.bindings != [] then Ok(active + [z])
        else if z.name != defaultZone then Ok(active)
        else if bound > 0 then Err
        else Ok(active + [z.(bindings := [Everything])])
  }

  lemma {:induction false} ActiveValid(zones: seq<Zone>, defaultZone: string, bound: nat)
    requires ValidZones(zones) && ActiveZones(zones, defaultZone, bound).Ok?
    ensures ValidZones(ActiveZones(zones, defaultZone, bound).value)
  {
    if zones != [] {
      var n := |zones| - 1;
      assert ValidZones(zones[..n]) by {
        assert forall i :: 0 <= i < n ==> zones[..n][i] == zones[i];
      }
      ActiveValid(zones[..n], defaultZone, bound);
      assert ValidZone(zones[n]);
    }
  }

  /** The zones whose elements become rules, if the import accepts the layout. */
  ghost function Accepted(zones: seq<Zone>, defaultZone: string): (r: Result<seq<Zone>>)
    requires ValidZones(zones)
    ensures r.Ok? ==> ValidZones(r.value) && OverlapFree(r.value)
  {
    match ActiveZones(zones, defaultZone, BoundCount(zones))
    case Err => Err
    case Ok(active) =>
      ActiveValid(zones, defaultZone, BoundCount(zones));
      if OverlapFree(active) then Ok(active) else Err
  }

  /** Both families accept or refuse an element together. */
  lemma OneFamilyOther(b: Binding, t: Template)
    requires b.Valid() && t.Valid()
    ensures ExpandOne(b, t, false).Ok? <==> ExpandOne(b, t, true).Ok?
  {
  }

  lemma {:induction false} ExpandFamilies(bindings: seq<Binding>, t: Template)
    requires ValidBindings(bindings) && t.Valid()
    ensures Expand(bindings, t, false).Ok? <==> Expand(bindings, t, true).Ok?
  {
    if bindings != [] {
      assert forall i :: 0 < i < |bindings| ==> bindings[i] == bindings[1..][i - 1];
      OneFamilyOther(bindings[0], t);
      ExpandFamilies(bindings[1..], t);
    }
  }

  lemma {:induction false} ZoneFamilies(bindings: seq<Binding>, elems: seq<Template>)
    requires ValidBindings(bindings) && ValidTemplates(elems)
    ensures ZoneRules(bindings, elems, false).Ok? <==> ZoneRules(bindings, elems, true).Ok?
  {
    if elems != [] {
      assert forall i :: 0 < i < |elems| ==> elems[i] == elems[1..][i - 1];
      ExpandFamilies(bindings, elems[0]);
      ZoneFamilies(bindings, elems[1..]);
    }
  }

  class Loader {
    var rules4: seq<Rule>
    var rules6: seq<Rule>
    const defaultZone: string

    constructor (defaultZone: string)
      ensures rules4 == [] && rules6 == [] && this.defaultZone == defaultZone
    {
      rules4, rules6 := [], [];
      this.defaultZone := defaultZone;
    }

    /** What is staged so far, followed by a family's remaining rules. */
    ghost function With(rest: Result<seq<Rule>>, v6: bool): Result<seq<Rule>>
      reads this
    {
      Append(Ok(if v6 then rules6 else rules4), rest)
    }

    /** Stages one element under one binding. */
    method EmitOne(b: Binding, t: Template) returns (ok: bool)
      requires b.Valid() && t.Valid()
      modifies this
      ensures ok <==> ExpandOne(b, t, false).Ok?
      ensures ok ==> rules4 == old(rules4) + ExpandOne(b, t, false).value
      ensures ok ==> ExpandOne(b, t, true).Ok? && rules6 == old(rules6) + ExpandOne(b, t, true).value
    {
      OneFamilyOther(b, t);
      match JoinSource(b, t.src) {
        case Clash => ok := false;
        case Dead => ok := true;
        case Endpoint(src) =>
          var v4, v6 := t.v4 && b.Covers(false), t.v6 && b.Covers(true);
          if !v4 && !v6 {
            return false;
          }
          if v4 {
            rules4 := rules4 + [RuleFor(b, t, src, false)];
          }
          if v6 {
            rules6 := rules6 + [RuleFor(b, t, src, true)];
          }
          ok := true;
      }
    }

    /** Expands a template across the zone's bindings. */
    method Emit(bindings: seq<Binding>, t: Template) returns (ok: bool)
      requires ValidBindings(bindings) && t.Valid()
      modifies this
      ensures ok <==> Expand(bindings, t, false).Ok?
      ensures ok ==> rules4 == old(rules4) + Expand(bindings, t, false).value
      ensures ok ==> Expand(bindings, t, true).Ok? && rules6 == old(rules6) + Expand(bindings, t, true).value
    {
      ghost var want4, want6 := With(Expand(bindings, t, false), false), With(Expand(bindings, t, true), true);
      ExpandFamilies(bindings, t);
      assert bindings[0..] == bindings;
      for i := 0 to |bindings|
        invariant With(Expand(bindings[i..], t, false), false) == want4
        invariant With(Expand(bindings[i..], t, true), true) == want6
      {
        assert bindings[i..][1..] == bindings[i + 1..];
        OneFamilyOther(bindings[i], t);
        AppendAssoc(rules4, ExpandOne(bindings[i], t, false), Expand(bindings[i + 1..], t, false));
        AppendAssoc(rules6, ExpandOne(bindings[i], t, true), Expand(bindings[i + 1..], t, true));
        ok := EmitOne(bindings[i], t);
        if !ok {
          return;
        }
      }
      ok := true;
    }

    method EmitZone(z: Zone) returns (ok: bool)
      requires ValidZone(z) && ValidBindings(z.bindings) && ValidTemplates(z.elems)
      modifies this
      ensures ok <==> ZoneRules(z.bindings, z.elems, false).Ok?
      ensures ok ==> rules4 == old(rules4) + ZoneRules(z.bindings, z.elems, false).value
      ensures ok ==> ZoneRules(z.bindings, z.elems, true).Ok?
                     && rules6 == old(rules6) + ZoneRules(z.bindings, z.elems, true).value
    {
      var elems := z.elems;
      ghost var want4, want6 := With(ZoneRules(z.bindings, elems, false), false), With(ZoneRules(z.bindings, elems, true), true);
      ZoneFamilies(z.bindings, elems);
      assert elems[0..] == elems;
      for i := 0 to |elems|
        invariant With(ZoneRules(z.bindings, elems[i..], false), false) == want4
        invariant With(ZoneRules(z.bindings, elems[i..], true), true) == want6
      {
        assert elems[i..][1..] == elems[i + 1..];
        ExpandFamilies(z.bindings, elems[i]);
        AppendAssoc(rules4, Expand(z.bindings, elems[i], false), ZoneRules(z.bindings, elems[i + 1..], false));
        AppendAssoc(rules6, Expand(z.bindings, elems[i], true), ZoneRules(z.bindings, elems[i + 1..], true));
        ok := Emit(z.bindings, elems[i]);
        if !ok {
          return;
        }
      }
      ok := true;
    }

    /** Compares every binding of every zone with those of every later zone. */
    method CheckZoneOverlap(active: seq<Zone>) returns (ok: bool)
      requires ValidZones(active)
      ensures ok <==> OverlapFree(active)
    {
      for i := 0 to |active|
        invariant forall k, j :: 0 <= k < i && k < j < |active| ==> !ZonesOverlap(active[k], active[j])
      {
        for j := i + 1 to |active|
          invariant forall k :: i < k < j ==> !ZonesOverlap(active[i], active[k])
        {
          var meet := CheckPair(active[i], active[j]);
          if meet {
            return false;
          }
        }
      }
      ok := true;
    }

    method CheckPair(a: Zone, b: Zone) returns (meet: bool)
      requires ValidZone(a) && ValidZone(b)
      ensures meet <==> ZonesOverlap(a, b)
    {
      for i := 0 to |a.bindings|
        invariant forall k, j :: 0 <= k < i && 0 <= j < |b.bindings| ==> !Overlap(a.bindings[k], b.bindings[j])
      {
        for j := 0 to |b.bindings|
          invariant forall k :: 0 <= k < j ==> !Overlap(a.bindings[i], b.bindings[k])
        {
          if Overlap(a.bindings[i], b.bindings[j]) {
            return true;
          }
        }
      }
      meet := false;
    }

    method SelectActive(zones: seq<Zone>) returns (res: Result<seq<Zone>>)
      ensures res == ActiveZones(zones, defaultZone, BoundCount(zones))
    {
      var bound := 0;
      for i := 0 to |zones|
        invariant bound == BoundCount(zones[..i])
      {
        assert zones[..i + 1][..i] == zones[..i];
        if zones[i].bindings != [] {
          bound := bound + 1;
        }
      }
      assert zones[..|zones|] == zones;
      var active := [];
      for i := 0 to |zones|
        invariant ActiveZones(zones[..i], defaultZone, bound) == Ok(active)
      {
        assert zones[..i + 1][..i] == zones[..i];
        var z := zones[i];
        if z.bindings == [] {
          if z.name != defaultZone {
            continue;
          }
          if bound > 0 {
            ActiveErr(zones, i + 1, defaultZone, bound);
            return Err;
          }
          z := z.(bindings := [Everything]);
        }
        active := active + [z];
      }
      res := Ok(active);
    }

    /** Selects the active zones, rejects overlaps between them, then stages their elements. */
    method EmitZones(zones: seq<Zone>) returns (ok: bool)
      requires ValidZones(zones)
      modifies this
      ensures ok <==> Accepted(zones, defaultZone).Ok? && FlatRules(Accepted(zones, defaultZone).value, false).Ok?
      ensures ok ==> rules4 == old(rules4) + FlatRules(Accepted(zones, defaultZone).value, false).value
      ensures ok ==> FlatRules(Accepted(zones, defaultZone).value, true).Ok?
                     && rules6 == old(rules6) + FlatRules(Accepted(zones, defaultZone).value, true).value
    {
      var selected := SelectActive(zones);
      if selected.Err? {
        return false;
      }
      var active := selected.value;
      ActiveValid(zones, defaultZone, BoundCount(zones));
      var free := CheckZoneOverlap(active);
      if !free {
        return false;
      }
      ok := EmitActive(active);
    }

    method EmitActive(active: seq<Zone>) returns (ok: bool)
      requires ValidZones(active)
      modifies this
      ensures ok <==> FlatRules(active, false).Ok?
      ensures ok ==> rules4 == old(rules4) + FlatRules(active, false).value
      ensures ok ==> FlatRules(active, true).Ok? && rules6 == old(rules6) + FlatRules(active, true).value
    {
      ghost var want4, want6 := With(FlatRules(active, false), false), With(FlatRules(active, true), true);
      FlatFamilies(active);
      assert active[0..] == active;
      for i := 0 to |active|
        invariant ValidZones(active[i..])
        invariant With(FlatRules(active[i..], false), false) == want4
        invariant With(FlatRules(active[i..], true), true) == want6
      {
        assert active[i..][1..] == active[i + 1..];
        ValidTail(active[i..]);
        ZoneFamilies(active[i].bindings, active[i].elems);
        AppendAssoc(rules4, ZoneRules(active[i].bindings, active[i].elems, false), FlatRules(active[i + 1..], false));
        AppendAssoc(rules6, ZoneRules(active[i].bindings, active[i].elems, true), FlatRules(active[i + 1..], true));
        ok := EmitZone(active[i]);
        if !ok {
          return;
        }
      }
      ok := true;
    }
  }

  lemma AppendAssoc(a: seq<Rule>, b: Result<seq<Rule>>, c: Result<seq<Rule>>)
    ensures Append(Ok(a), Append(b, c)) == if b.Ok? then Append(Ok(a + b.value), c) else Err
  {
    if b.Ok? && c.Ok? {
      assert a + (b.value + c.value) == (a + b.value) + c.value;
    }
  }

  lemma {:induction false} ActiveErr(zones: seq<Zone>, i: nat, defaultZone: string, bound: nat)
    requires i <= |zones| && ActiveZones(zones[..i], defaultZone, bound).Err?
    ensures ActiveZones(zones, defaultZone, bound).Err?
    decreases |zones|
  {
    if i == |zones| {
      assert zones[..i] == zones;
    } else {
      assert zones[..|zones| - 1][..i] == zones[..i];
      ActiveErr(zones[..|zones| - 1], i, defaultZone, bound);
    }
  }

  lemma {:induction false} FlatFamilies(zones: seq<Zone>)
    requires ValidZones(zones)
    ensures FlatRules(zones, false).Ok? <==> FlatRules(zones, true).Ok?
  {
    if zones != [] {
      ValidTail(zones);
      ZoneFamilies(zones[0].bindings, zones[0].elems);
      FlatFamilies(zones[1..]);
    }
  }

  /** An accepted layout whose interface patterns are apart: every packet belongs to at most one
      active zone and the flat list decides it as dispatching to that zone does. */
  lemma ZonesFlattened(zones: seq<Zone>, defaultZone: string, now: int, sets: SetFn, p: Packet)
    requires ValidZones(zones) && Accepted(zones, defaultZone).Ok? && p.Valid()
    requires PatternsApart(Accepted(zones, defaultZone).value)
    requires FlatRules(Accepted(zones, defaultZone).value, p.v6).Ok?
    ensures var active := Accepted(zones, defaultZone).value;
      && OneZone(active, sets, p)
      && Listed(FlatRules(active, p.v6).value)
      && Decide(FlatRules(active, p.v6).value, p.v6, In, now, sets, p) == Dispatch(active, sets, p)
  {
    var active := Accepted(zones, defaultZone).value;
    AtMostOneZone(active, sets, p);
    FlatExact(active, now, sets, p);
  }

  /** Traffic outside every active zone meets no emitted rule, even where firewalld would hand
      it to a default zone that has bindings of its own. */
  lemma UnboundTraffic(zones: seq<Zone>, defaultZone: string, now: int, sets: SetFn, p: Packet)
    requires ValidZones(zones) && Accepted(zones, defaultZone).Ok? && p.Valid()
    requires FlatRules(Accepted(zones, defaultZone).value, p.v6).Ok?
    requires forall i :: 0 <= i < |Accepted(zones, defaultZone).value| ==> !InZone(Accepted(zones, defaultZone).value[i], sets, p)
    ensures var rules := FlatRules(Accepted(zones, defaultZone).value, p.v6).value;
      Listed(rules) && Decide(rules, p.v6, In, now, sets, p) == None
  {
    FlatExact(Accepted(zones, defaultZone).value, now, sets, p);
    NoZone(Accepted(zones, defaultZone).value, sets, p);
  }

  /** Merged into an empty list, distinct tuples keep the dispatch verdict. */
  lemma ImportedZones(zones: seq<Zone>, defaultZone: string, ids: seq<string>, now: int, sets: SetFn, p: Packet)
    requires ValidZones(zones) && Accepted(zones, defaultZone).Ok? && p.Valid()
    requires PatternsApart(Accepted(zones, defaultZone).value)
    requires var rules := FlatRules(Accepted(zones, defaultZone).value, p.v6);
      rules.Ok? && Listed(rules.value) && TuplesUnique(rules.value) && |ids| == |rules.value|
    ensures var active := Accepted(zones, defaultZone).value;
      var merged := Merged([], FlatRules(active, p.v6).value, ids);
      Imported(merged) && Decide(merged, p.v6, In, now, sets, p) == Dispatch(active, sets, p)
  {
    ZonesFlattened(zones, defaultZone, now, sets, p);
    DistinctMerge(FlatRules(Accepted(zones, defaultZone).value, p.v6).value, ids, p.v6, In, now, sets, p);
  }

  /** When every zone is bound, every zone is active. */
  lemma {:induction false} AllBound(zones: seq<Zone>, defaultZone: string, bound: nat)
    requires forall i :: 0 <= i < |zones| ==> zones[i].bindings != []
    ensures ActiveZones(zones, defaultZone, bound) == Ok(zones)
  {
    if zones != [] {
      AllBound(zones[..|zones| - 1], defaultZone, bound);
      assert zones == zones[..|zones| - 1] + [zones[|zones| - 1]];
    }
  }

  const ETH_ANY: Name := [101, 116, 104, PLUS]
  const ETH0: Name := [101, 116, 104, 48]

  /** A zone bound to eth+ and one bound to eth0 are accepted, and a packet arriving on eth0
      belongs to both: the flat list then decides by whichever zone comes first. */
  lemma WildcardZones(first: seq<Template>, second: seq<Template>, sets: SetFn)
    requires ValidTemplates(first) && ValidTemplates(second)
    ensures var zones := [Zone("a", [OfIface(ETH_ANY)], first), Zone("b", [OfIface(ETH0)], second)];
      ValidZones(zones) && Accepted(zones, "a") == Ok(zones) && !OneZone(zones, sets, ArrivingOn(ETH0))
  {
    var zones := [Zone("a", [OfIface(ETH_ANY)], first), Zone("b", [OfIface(ETH0)], second)];
    AllBound(zones, "a", BoundCount(zones));
    assert !ZonesOverlap(zones[0], zones[1]);
    assert ETH_ANY[..3] <= ETH0;
    PatternsShareZones(zones, sets, 0, 1, 0, 0);
  }
}
