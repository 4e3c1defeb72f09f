/** What the parser reads from the body of a printed command. */
module ReparseBody {
  import opened Bytes
  import opened Cidr
  import opened Rules
  import opened PortOrder
  import opened AddressText
  import opened Command
  import opened Parser
  import opened Reparse
  import opened ReparseFront

  // ---- ports ---------------------------------------------------------------------------

  function Blanks(ports: seq<PortRange>): seq<PortRange> {
    seq(|ports|, i requires 0 <= i < |ports| => ports[i].(proto := Blank))
  }

  lemma PortsRead(ports: seq<PortRange>, p: Proto, proto: Option<string>)
    requires NormalPorts(ports, p) && ports != []
    ensures ParseItems(PortToken(ports, proto).items) == Ok(Blanks(ports))
  {
    var items := PortToken(ports, proto).items;
    assert items == PortToken(ports, None).items;
    forall i | 0 <= i < |items| ensures ItemOk(items[i]) && RangeOf(items[i]) == Blanks(ports)[i] {
    }
    assert ParseItems(items).Ok?;
    assert ParseItems(items).value == Blanks(ports);
  }

  lemma PortsStamped(ports: seq<PortRange>, p: Proto)
    requires NormalPorts(ports, p)
    ensures StampPorts(Blanks(ports), p) == ports && SortPorts(ports) == ports
  {
    SortOrdered(ports);
  }

  lemma ProtoRead(p: Proto)
    requires p != UnknownProto
    ensures ProtoOf(ProtoWord(p)) == Some(p)
  {
  }

  lemma NameRead(n: Rules.Name)
    requires n != [] && NormalIface(n)
    ensures NameOf(NameText(n)) == n && TextOf(Lex(NameText(n))) == Some(NameText(n))
  {
    LexText(NameText(n));
  }

  // ---- one clause at a time ------------------------------------------------------------------

  /** A key and its value, when the value is no key. */
  lemma PairRead(d: Draft, k: Token, v: Token, rest: Args, d': Draft)
    requires IsKey(k) && !IsKey(v) && Clause(d, k, [v] + rest) == Ok(d')
    ensures Clauses(d, [k, v] + rest, true) == Clauses(d', rest, true)
  {
    assert ([k, v] + rest)[1..] == [v] + rest && ([v] + rest)[1..] == rest;
    assert Clauses(d', [v] + rest, false) == Clauses(d', rest, true);
  }

  lemma ActionSkipped(d: Draft, a: Token, rest: Args)
    requires !IsKey(a)
    ensures Clauses(d, [a] + rest, false) == Clauses(d, rest, true)
  {
    assert ([a] + rest)[1..] == rest;
  }

  function SideKey(side: Side): Keyword {
    if side == Source then FromKey else ToKey
  }

  lemma DispatchAddr(d: Draft, side: Side, v: Token, rest: Args)
    requires side != NoSide
    ensures Clause(d, Key(SideKey(side)), [v] + rest) == AddrClause(d, side, v)
  {
  }

  lemma DispatchIface(d: Draft, k: Keyword, v: Token, rest: Args)
    requires k == InKey || k == OutKey
    ensures Clause(d, Key(k), [v] + rest) == IfaceClause(d, if k == InKey then In else Out, v)
  {
  }

  lemma DispatchPort(d: Draft, v: Token, rest: Args)
    ensures Clause(d, Key(PortKey), [v] + rest) == PortClause(d, v)
  {
  }

  function WithIface(d: Draft, r: Rule): Draft {
    if r.ifaceIn != [] then d.(rule := d.rule.(ifaceIn := r.ifaceIn))
    else if r.ifaceOut != [] then d.(rule := d.rule.(ifaceOut := r.ifaceOut))
    else d
  }

  lemma IfaceClauseRead(d: Draft, dir: Direction, n: Rules.Name)
    requires n != [] && NormalIface(n) && (dir == In || dir == Out)
    ensures IfaceClause(d, dir, Lex(NameText(n)))
         == Ok(d.(rule := if dir == In then d.rule.(ifaceIn := n) else d.rule.(ifaceOut := n)))
  {
    NameRead(n);
  }

  lemma IfaceRead(d: Draft, r: Rule, rest: Args)
    requires CleanNames(r) && NormalIface(r.ifaceIn) && NormalIface(r.ifaceOut)
    ensures Clauses(d, IfacePair(r) + rest, true) == Clauses(WithIface(d, r), rest, true)
  {
    if HasIface(r) {
      var n := if r.ifaceIn != [] then r.ifaceIn else r.ifaceOut;
      var k := if r.ifaceIn != [] then InKey else OutKey;
      IfaceClauseRead(d, if r.ifaceIn != [] then In else Out, n);
      DispatchIface(d, k, Lex(NameText(n)), rest);
      PairRead(d, Key(k), Lex(NameText(n)), rest, WithIface(d, r));
    } else {
      assert [] + rest == rest;
    }
  }

  /** What can be read back of one side. */
  function ReadSide(a: AddrSpec): AddrSpec {
    AddrSpec(if PrintsAny(a) then AnyIp else a.ip, Blanks(a.ports), a.setName)
  }

  function ReadFamily(a: AddrSpec): Family {
    if PrintsAny(a) then Both else SideFamily(a)
  }

  function WithAddr(d: Draft, side: Side, a: AddrSpec): Draft
    requires side != NoSide
  {
    if side == Source then d.(rule := d.rule.(src := a), side := side) else d.(rule := d.rule.(dst := a), side := side)
  }

  function WithFamily(d: Draft, side: Side, f: Family): Draft {
    if side == Source then d.(from := f) else d.(to := f)
  }

  function WithSide(d: Draft, side: Side, a: AddrSpec): Draft
    requires side != NoSide
  {
    if !Printed(a) then d else WithFamily(WithAddr(d, side, ReadSide(a)), side, ReadFamily(a))
  }

  const WILD: AddrSpec := AddrSpec(AnyIp, [], "")

  predicate Fresh(d: Draft, side: Side) {
    if side == Source then d.rule.src == WILD else d.rule.dst == WILD
  }

  function WithLoc(d: Draft, side: Side, a: AddrSpec): Draft
    requires side != NoSide
  {
    WithFamily(WithAddr(d, side, ReadSide(a).(ports := [])), side, ReadFamily(a))
  }

  lemma AddrRead(a: AddrSpec, p: Proto)
    requires NormalSide(a, p)
    ensures ParseAddr(FoldedLoc(a)) == Ok(Located(ReadSide(a).ip, a.setName, ReadFamily(a))) && !IsKey(FoldedLoc(a))
  {
  }

  lemma AddrClauseRead(d: Draft, side: Side, a: AddrSpec, p: Proto)
    requires side != NoSide && NormalSide(a, p) && Fresh(d, side)
    ensures AddrClause(d, side, FoldedLoc(a)) == Ok(WithLoc(d, side, a))
  {
    AddrRead(a, p);
  }

  lemma LocRead(d: Draft, side: Side, a: AddrSpec, p: Proto, rest: Args)
    requires side != NoSide && NormalSide(a, p) && Fresh(d, side)
    ensures Clauses(d, [Key(SideKey(side)), FoldedLoc(a)] + rest, true)
         == Clauses(WithLoc(d, side, a), rest, true)
  {
    AddrRead(a, p);
    AddrClauseRead(d, side, a, p);
    DispatchAddr(d, side, FoldedLoc(a), rest);
    PairRead(d, Key(SideKey(side)), FoldedLoc(a), rest, WithLoc(d, side, a));
  }

  lemma PortClauseRead(d: Draft, side: Side, a: AddrSpec, p: Proto)
    requires side != NoSide && NormalSide(a, p) && a.ports != []
    requires d.side == side && (if side == Source then d.rule.src else d.rule.dst) == ReadSide(a).(ports := [])
    ensures PortClause(d, PortToken(a.ports, None)) == Ok(WithAddr(d, side, ReadSide(a)))
  {
    PortsRead(a.ports, p, None);
  }

  lemma PortsClauseRead(d: Draft, side: Side, a: AddrSpec, p: Proto, rest: Args)
    requires side != NoSide && NormalSide(a, p) && a.ports != []
    requires d.side == side && (if side == Source then d.rule.src else d.rule.dst) == ReadSide(a).(ports := [])
    ensures Clauses(d, PortClauses(a) + rest, true) == Clauses(WithAddr(d, side, ReadSide(a)), rest, true)
  {
    PortClauseRead(d, side, a, p);
    DispatchPort(d, PortToken(a.ports, None), rest);
    PairRead(d, Key(PortKey), PortToken(a.ports, None), rest, WithAddr(d, side, ReadSide(a)));
  }

  lemma LocThenPorts(d: Draft, side: Side, a: AddrSpec, p: Proto, rest: Args)
    requires side != NoSide && NormalSide(a, p) && Printed(a)
    ensures Clauses(WithLoc(d, side, a), PortClauses(a) + rest, true) == Clauses(WithSide(d, side, a), rest, true)
  {
    if a.ports == [] {
      assert [] + rest == rest && Blanks(a.ports) == [];
    } else {
      PortsClauseRead(WithLoc(d, side, a), side, a, p, rest);
    }
  }

  lemma SideRead(d: Draft, side: Side, a: AddrSpec, p: Proto, rest: Args)
    requires side != NoSide && NormalSide(a, p) && Fresh(d, side)
    ensures Clauses(d, FoldedSide(SideKey(side), a) + rest, true) == Clauses(WithSide(d, side, a), rest, true)
  {
    if !Printed(a) {
      assert [] + rest == rest;
    } else {
      var loc := [Key(SideKey(side)), FoldedLoc(a)];
      Reassoc(loc, PortClauses(a), rest);
      LocRead(d, side, a, p, PortClauses(a) + rest);
      LocThenPorts(d, side, a, p, rest);
    }
  }

  lemma ProtoClauseRead(d: Draft, r: Rule, rest: Args)
    requires r.proto != UnknownProto && d.rule.proto == AnyProto && !IsKey(Plain(ProtoWord(r.proto)))
    ensures Clauses(d, ProtoTokens(r) + rest, true)
         == Clauses(d.(rule := d.rule.(proto := r.proto), protoSeen := d.protoSeen || r.proto != AnyProto), rest, true)
  {
    if r.proto == AnyProto {
      assert [] + rest == rest;
    } else {
      ProtoRead(r.proto);
      PairRead(d, Key(ProtoKey), Plain(ProtoWord(r.proto)), rest,
               d.(rule := d.rule.(proto := r.proto), protoSeen := true));
    }
  }

  lemma TypeClauseRead(d: Draft, r: Rule)
    requires r.icmpType.Some? ==> d.protoSeen && (d.rule.proto == Icmp || d.rule.proto == Icmpv6)
    requires d.rule.icmpType == None
    ensures Clauses(d, TypeTokens(r), true) == Ok(d.(rule := d.rule.(icmpType := r.icmpType)))
  {
    if r.icmpType.Some? {
      var d' := d.(rule := d.rule.(icmpType := r.icmpType));
      var v := Ports([One(r.icmpType.value as int)], None);
      assert TypeTokens(r) == [Key(TypeKey), v] + [];
      PairRead(d, Key(TypeKey), v, [], d');
    }
  }

  // ---- the whole body --------------------------------------------------------------------------

  function WithSides(d: Draft, r: Rule): Draft {
    if !Printed(r.src) && !Printed(r.dst) then (if HasIface(r) then d else d.(side := Dest))
    else WithSide(WithSide(d, Source, r.src), Dest, r.dst)
  }

  lemma ToAnyRead(d: Draft, rest: Args)
    requires Fresh(d, Dest) && d.to == Both
    ensures Clauses(d, [Key(ToKey), Key(AnyKey)] + rest, true) == Clauses(d.(side := Dest), rest, true)
  {
    DispatchAddr(d, Dest, Key(AnyKey), rest);
    PairRead(d, Key(ToKey), Key(AnyKey), rest, d.(side := Dest));
  }

  lemma SidesRead(d: Draft, r: Rule, rest: Args)
    requires NormalSide(r.src, r.proto) && NormalSide(r.dst, r.proto) && Fresh(d, Source) && Fresh(d, Dest) && d.to == Both
    ensures Clauses(d, FoldedSides(r) + rest, true) == Clauses(WithSides(d, r), rest, true)
  {
    var from, to := FoldedSide(FromKey, r.src), FoldedSide(ToKey, r.dst);
    if !Printed(r.src) && !Printed(r.dst) {
      if HasIface(r) {
        assert from + to + rest == rest;
      } else {
        ToAnyRead(d, rest);
      }
    } else {
      Reassoc(from, to, rest);
      SideRead(d, Source, r.src, r.proto, to + rest);
      SideRead(WithSide(d, Source, r.src), Dest, r.dst, r.proto, rest);
    }
  }

  function BareRule(id: string, r: Rule): Rule {
    NewRule(id, r.action, ParsedDir(r), r.log, r.comment)
  }

  /** The rule as the clauses leave it: the second interface of a route is still missing. */
  function ReadRule(id: string, r: Rule): Rule {
    BareRule(id, r).(ifaceIn := r.ifaceIn, ifaceOut := if r.ifaceIn == [] then r.ifaceOut else [],
                     proto := r.proto, icmpType := r.icmpType, src := ReadSide(r.src), dst := ReadSide(r.dst))
  }

  function Draft0(id: string, r: Rule): Draft {
    Draft(BareRule(id, r), NoSide, Both, Both, false)
  }

  /** The draft before the protocol clause. */
  function SidesDraft(id: string, r: Rule): Draft {
    WithSides(WithIface(Draft0(id, r), r), r)
  }

  lemma UnprintedIsWild(a: AddrSpec)
    ensures !Printed(a) ==> ReadSide(a) == WILD
  {
    assert Blanks([]) == [];
  }

  lemma SidesDraftRule(id: string, r: Rule)
    ensures SidesDraft(id, r).rule == ReadRule(id, r).(proto := AnyProto, icmpType := None)
  {
    UnprintedIsWild(r.src);
    UnprintedIsWild(r.dst);
  }

  lemma SidesDraftRest(id: string, r: Rule)
    ensures var d := SidesDraft(id, r);
      d.from == ReadFamily(r.src) && d.to == ReadFamily(r.dst) && !d.protoSeen
  {
  }

  lemma TailRead(id: string, r: Rule)
    requires NormalSide(r.src, r.proto) && NormalSide(r.dst, r.proto) && r.proto != UnknownProto
    requires r.icmpType.Some? ==> r.proto == Icmp || r.proto == Icmpv6
    ensures var d := SidesDraft(id, r);
      Clauses(d, ProtoTokens(r) + TypeTokens(r), true)
      == Ok(d.(rule := ReadRule(id, r), protoSeen := r.proto != AnyProto))
  {
    var d := SidesDraft(id, r);
    SidesDraftRule(id, r);
    SidesDraftRest(id, r);
    ProtoClauseRead(d, r, TypeTokens(r));
    TypeClauseRead(d.(rule := d.rule.(proto := r.proto), protoSeen := r.proto != AnyProto), r);
  }

  lemma SidesTailRead(id: string, r: Rule)
    requires ParserNormal(r) && CleanNames(r)
    ensures var d := SidesDraft(id, r);
      Clauses(WithIface(Draft0(id, r), r), FoldedSides(r) + (ProtoTokens(r) + TypeTokens(r)), true)
      == Ok(d.(rule := ReadRule(id, r), protoSeen := r.proto != AnyProto))
  {
    SidesRead(WithIface(Draft0(id, r), r), r, ProtoTokens(r) + TypeTokens(r));
    TailRead(id, r);
  }

  /** The token loop over the whole body. */
  lemma BodyRead(id: string, r: Rule)
    requires ParserNormal(r) && CleanNames(r)
    ensures var d := SidesDraft(id, r);
      Clauses(Draft0(id, r), [ActionToken(r)] + IfacePair(r) + (FoldedSides(r) + ProtoTokens(r) + TypeTokens(r)), false)
      == Ok(d.(rule := ReadRule(id, r), protoSeen := r.proto != AnyProto))
  {
    var tail := ProtoTokens(r) + TypeTokens(r);
    var body := FoldedSides(r) + tail;
    Reassoc(FoldedSides(r), ProtoTokens(r), TypeTokens(r));
    Reassoc([ActionToken(r)], IfacePair(r), body);
    ActionSkipped(Draft0(id, r), ActionToken(r), IfacePair(r) + body);
    IfaceRead(Draft0(id, r), r, body);
    SidesTailRead(id, r);
  }

  // ---- counts and lengths ------------------------------------------------------------------------

  lemma CountTwo(x: Token, y: Token, k: Keyword)
    ensures CountOf([x, y], k) == (if Is(x, k) then 1 else 0) + (if Is(y, k) then 1 else 0)
  {
    assert [x, y][..1] == [x] && [x][..0] == [];
    assert CountOf([], k) == 0;
    assert CountOf([x], k) == CountOf([], k) + if Is(x, k) then 1 else 0;
  }

  function Bit(b: bool): nat {
    if b then 1 else 0
  }

  lemma SideCount(key: Keyword, a: AddrSpec, k: Keyword)
    requires k != AnyKey
    ensures CountOf(FoldedSide(key, a), k) <= Bit(k == key) + Bit(k == PortKey)
  {
    if Printed(a) {
      CountConcat([Key(key), FoldedLoc(a)], PortClauses(a), k);
      CountTwo(Key(key), FoldedLoc(a), k);
      if a.ports != [] {
        CountTwo(Key(PortKey), PortToken(a.ports, None), k);
      }
    }
  }

  lemma SidesCount(r: Rule, k: Keyword)
    requires k != AnyKey
    ensures CountOf(FoldedSides(r), k) <= Bit(k == FromKey) + Bit(k == ToKey) + 2 * Bit(k == PortKey)
  {
    var from, to := FoldedSide(FromKey, r.src), FoldedSide(ToKey, r.dst);
    if from + to == [] && !HasIface(r) {
      CountTwo(Key(ToKey), Key(AnyKey), k);
    } else {
      SideCount(FromKey, r.src, k);
      SideCount(ToKey, r.dst, k);
      CountConcat(from, to, k);
    }
  }

  lemma TailCount(r: Rule, k: Keyword)
    ensures CountOf(ProtoTokens(r) + TypeTokens(r), k) <= Bit(k == ProtoKey) + Bit(k == TypeKey)
  {
    CountConcat(ProtoTokens(r), TypeTokens(r), k);
    if r.proto != AnyProto {
      CountTwo(Key(ProtoKey), Plain(ProtoWord(r.proto)), k);
    }
    if r.icmpType.Some? {
      CountTwo(Key(TypeKey), Ports([One(r.icmpType.value as int)], None), k);
    }
  }

  lemma PairCount(r: Rule, k: Keyword)
    requires CleanNames(r)
    ensures CountOf([ActionToken(r)] + IfacePair(r), k) <= Bit(k == InKey || k == OutKey)
  {
    CountConcat([ActionToken(r)], IfacePair(r), k);
    assert [ActionToken(r)][..0] == [];
    if HasIface(r) {
      CountTwo(IfacePair(r)[0], IfacePair(r)[1], k);
    }
  }

  function FullArgs(r: Rule): Args {
    [ActionToken(r)] + IfacePair(r) + (FoldedSides(r) + ProtoTokens(r) + TypeTokens(r))
  }

  lemma FullCount(r: Rule, k: Keyword)
    requires CleanNames(r) && k != AnyKey
    ensures CountOf(FullArgs(r), k) <= Bit(k == InKey || k == OutKey) + Bit(k == FromKey) + Bit(k == ToKey)
      + 2 * Bit(k == PortKey) + Bit(k == ProtoKey) + Bit(k == TypeKey)
  {
    var front, tail := [ActionToken(r)] + IfacePair(r), ProtoTokens(r) + TypeTokens(r);
    Reassoc(FoldedSides(r), ProtoTokens(r), TypeTokens(r));
    CountConcat(front, FoldedSides(r) + tail, k);
    CountConcat(FoldedSides(r), tail, k);
    PairCount(r, k);
    SidesCount(r, k);
    TailCount(r, k);
  }

  lemma FullNotTooMany(r: Rule)
    requires CleanNames(r)
    ensures !TooMany(FullArgs(r))
  {
    FullCount(r, ToKey);
    FullCount(r, FromKey);
    FullCount(r, ProtoKey);
    FullCount(r, PortKey);
    FullCount(r, TypeKey);
    FullCount(r, InKey);
    FullCount(r, OutKey);
    FullCount(r, AppKey);
  }

  lemma SidesLength(r: Rule)
    ensures var n := |FoldedSides(r)|;
      n % 2 == 0 && n <= 4 + 2 * Bit(r.src.ports != []) + 2 * Bit(r.dst.ports != []) && (!HasIface(r) ==> n >= 2)
  {
  }

  lemma TailLength(r: Rule)
    requires r.icmpType.Some? ==> r.proto == Icmp || r.proto == Icmpv6
    ensures |ProtoTokens(r) + TypeTokens(r)| == 2 * Bit(r.proto != AnyProto) + 2 * Bit(r.icmpType.Some?)
  {
  }

  lemma FullSize(r: Rule)
    ensures |FullArgs(r)| == 1 + 2 * Bit(HasIface(r)) + |FoldedSides(r)| + |ProtoTokens(r) + TypeTokens(r)|
  {
    assert |IfacePair(r)| == 2 * Bit(HasIface(r));
  }

  lemma LengthBound(sides: nat, iface: bool, sport: bool, dport: bool, proto: bool, typed: bool)
    requires sides % 2 == 0 && sides <= 4 + 2 * Bit(sport) + 2 * Bit(dport) && (!iface ==> sides >= 2)
    requires typed ==> !sport && !dport
    ensures var n := 1 + 2 * Bit(iface) + sides + (2 * Bit(proto) + 2 * Bit(typed)); 3 <= n <= 13 && n % 2 == 1
  {
  }

  /** The full form has an odd number of arguments, between three and thirteen. */
  lemma FullLength(r: Rule)
    requires PortsFit(r) && (r.icmpType.Some? ==> r.proto == Icmp || r.proto == Icmpv6)
    ensures 3 <= |FullArgs(r)| <= 13 && |FullArgs(r)| % 2 == 1
  {
    SidesLength(r);
    TailLength(r);
    FullSize(r);
    LengthBound(|FoldedSides(r)|, HasIface(r), r.src.ports != [], r.dst.ports != [], r.proto != AnyProto, r.icmpType.Some?);
  }

  lemma FullHasWord(r: Rule)
    ensures HasClauseWord(FullArgs(r))
  {
    var argv := FullArgs(r);
    if r.ifaceIn != [] {
      assert Is(argv[1], InKey);
    } else if r.ifaceOut != [] {
      assert Is(argv[1], OutKey);
    } else {
      assert argv[1] == FoldedSides(r)[0];
      assert Is(argv[1], FromKey) || Is(argv[1], ToKey);
    }
  }
}
