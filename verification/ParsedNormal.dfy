/** Every rule the parser accepts is in the normal form that printing relies on. */
module ParsedNormal {
  import opened Bytes
  import opened Cidr
  import opened Rules
  import opened PortOrder
  import opened AddressText
  import opened Command
  import opened Parser
  import opened Reparse
  import opened ReparseFront
  import opened ReparseBody
  import opened RoundTrip

  // ---- ports -------------------------------------------------------------------------------

  /** The number of ranges that print with a colon. */
  function Spans(ports: seq<PortRange>): nat {
    if ports == [] then 0
    else Spans(ports[..|ports| - 1]) + if ports[|ports| - 1].lo != ports[|ports| - 1].hi then 1 else 0
  }

  lemma {:induction false} SpansPrint(ports: seq<PortRange>, proto: Option<string>)
    ensures Colons(PortToken(ports, proto).items) == Spans(ports)
  {
    if ports != [] {
      var n := |ports| - 1;
      SpansPrint(ports[..n], proto);
      assert PortToken(ports, proto).items[..n] == PortToken(ports[..n], proto).items;
    }
  }

  lemma {:induction false} SpansConcat(a: seq<PortRange>, b: seq<PortRange>)
    ensures Spans(a + b) == Spans(a) + Spans(b)
  {
    if b == [] {
      assert a + b == a;
    } else {
      assert (a + b)[..|a + b| - 1] == a + b[..|b| - 1];
      SpansConcat(a, b[..|b| - 1]);
    }
  }

  lemma {:induction false} InsertSpans(r: PortRange, ports: seq<PortRange>)
    ensures Spans(InsertPort(r, ports)) == Spans([r]) + Spans(ports)
  {
    if ports == [] || Less(r, ports[0]) {
      SpansConcat([r], ports);
    } else {
      InsertSpans(r, ports[1..]);
      SpansConcat([ports[0]], InsertPort(r, ports[1..]));
      SpansConcat([ports[0]], ports[1..]);
      assert [ports[0]] + ports[1..] == ports;
    }
  }

  lemma {:induction false} SortSpans(ports: seq<PortRange>)
    ensures Spans(SortPorts(ports)) == Spans(ports)
  {
    if ports != [] {
      var n := |ports| - 1;
      SortSpans(ports[..n]);
      InsertSpans(ports[n], SortPorts(ports[..n]));
      SpansConcat(ports[..n], [ports[n]]);
      assert ports[..n] + [ports[n]] == ports;
    }
  }

  /** A list as a clause leaves it: valid ranges without a protocol, and few enough. */
  predicate RawPorts(ports: seq<PortRange>) {
    && (forall i :: 0 <= i < |ports| ==> 1 <= ports[i].lo <= ports[i].hi <= 65535 && ports[i].proto == Blank)
    && (ports != [] ==> |ports| - 1 + Spans(ports) <= 14)
  }

  lemma {:induction false} ItemSpans(items: seq<Item>, ports: seq<PortRange>)
    requires |items| == |ports| && forall i :: 0 <= i < |items| ==> ItemOk(items[i]) && ports[i] == RangeOf(items[i])
    ensures Spans(ports) == Colons(items)
  {
    if items != [] {
      ItemSpans(items[..|items| - 1], ports[..|items| - 1]);
    }
  }

  lemma ItemsRaw(items: seq<Item>)
    requires ParseItems(items).Ok?
    ensures RawPorts(ParseItems(items).value) && ParseItems(items).value != []
  {
    ItemSpans(items, ParseItems(items).value);
  }

  lemma {:induction false} SameSpans(a: seq<PortRange>, b: seq<PortRange>)
    requires |a| == |b| && forall i :: 0 <= i < |a| ==> a[i].lo == b[i].lo && a[i].hi == b[i].hi
    ensures Spans(a) == Spans(b)
  {
    if a != [] {
      SameSpans(a[..|a| - 1], b[..|b| - 1]);
    }
  }

  lemma StampedSpans(ports: seq<PortRange>, p: Proto)
    ensures Spans(StampPorts(ports, p)) == Spans(ports)
  {
    SameSpans(StampPorts(ports, p), ports);
  }

  function FinishPorts(ports: seq<PortRange>, p: Proto): seq<PortRange> {
    SortPorts(StampPorts(ports, p))
  }

  lemma FinishedValid(ports: seq<PortRange>, p: Proto)
    requires RawPorts(ports)
    ensures var f := FinishPorts(ports, p);
      forall i :: 0 <= i < |f| ==> 1 <= f[i].lo <= f[i].hi <= 65535 && f[i].proto == Stamp(p)
    ensures |FinishPorts(ports, p)| == |ports|
  {
    var s, f := StampPorts(ports, p), FinishPorts(ports, p);
    SortMembers(s);
    forall i | 0 <= i < |f| ensures 1 <= f[i].lo <= f[i].hi <= 65535 && f[i].proto == Stamp(p) {
      assert f[i] in s;
    }
  }

  /** Stamping and sorting give the normal form. */
  lemma FinishedNormal(ports: seq<PortRange>, p: Proto)
    requires RawPorts(ports)
    ensures NormalPorts(FinishPorts(ports, p), p)
  {
    var f := FinishPorts(ports, p);
    FinishedValid(ports, p);
    SortOrders(StampPorts(ports, p));
    SortSpans(StampPorts(ports, p));
    StampedSpans(ports, p);
    SpansPrint(f, None);
  }

  lemma FinishedMulti(ports: seq<PortRange>, p: Proto)
    requires RawPorts(ports)
    ensures MultiPorts(FinishPorts(ports, p)) == MultiPorts(ports)
    ensures FinishPorts(ports, p) == [] <==> ports == []
  {
    FinishedValid(ports, p);
    if |ports| <= 1 {
      SortOrdered(StampPorts(ports, p));
    }
  }

  // ---- clauses -----------------------------------------------------------------------------------

  predicate RawSide(a: AddrSpec) {
    RawPorts(a.ports) && NormalIp(a.ip) && (a.setName != "" ==> a.ip == AnyIp)
  }

  /** What the clauses keep of a rule under construction. */
  predicate RawRule(r: Rule) {
    && RawSide(r.src) && RawSide(r.dst) && NormalIface(r.ifaceIn) && NormalIface(r.ifaceOut)
    && r.proto != UnknownProto && r.dapp == "" && r.sapp == ""
    && (r.icmpType.Some? ==> r.proto == Icmp || r.proto == Icmpv6)
  }

  /** The fields that no clause touches. */
  predicate SameFront(r: Rule, q: Rule) {
    r.action == q.action && r.comment == q.comment && r.dir == q.dir && r.routeDir == q.routeDir
  }

  predicate RawDraft(d: Draft) {
    && RawRule(d.rule) && d.from == SideFamily(d.rule.src) && d.to == SideFamily(d.rule.dst)
    && (d.rule.icmpType.Some? ==> d.protoSeen)
  }

  lemma IfaceSet(r: Rule, dir: Direction, t: Token)
    requires SetIface(r, dir, t).Ok?
    ensures var q := SetIface(r, dir, t).value;
      && (dir == In ==> q == r.(ifaceIn := q.ifaceIn) && NormalIface(q.ifaceIn))
      && (dir != In ==> q == r.(ifaceOut := q.ifaceOut) && NormalIface(q.ifaceOut))
  {
    var name := TextOf(t).value;
    assert NameText(NameOf(name)) == name;
  }

  lemma AddrKept(d: Draft, side: Side, v: Token)
    requires RawDraft(d) && side != NoSide && AddrClause(d, side, v).Ok?
    ensures var e := AddrClause(d, side, v).value;
      RawDraft(e) && SameFront(d.rule, e.rule) && e.protoSeen == d.protoSeen
  {
    var l := ParseAddr(v).value;
    assert NormalIp(l.ip) && (l.setName != "" ==> l.ip == AnyIp);
  }

  lemma PortKept(d: Draft, v: Token)
    requires RawDraft(d) && PortClause(d, v).Ok?
    ensures var e := PortClause(d, v).value;
      RawDraft(e) && SameFront(d.rule, e.rule) && e.protoSeen == d.protoSeen
  {
    ItemsRaw(v.items);
  }

  lemma IfaceKept(d: Draft, dir: Direction, v: Token)
    requires RawDraft(d) && IfaceClause(d, dir, v).Ok?
    ensures var e := IfaceClause(d, dir, v).value;
      RawDraft(e) && SameFront(d.rule, e.rule) && e.protoSeen == d.protoSeen
  {
    IfaceSet(d.rule, dir, v);
  }

  lemma ProtoKept(d: Draft, v: Token)
    requires RawDraft(d) && !d.protoSeen && ProtoClause(d, v).Ok?
    ensures RawDraft(ProtoClause(d, v).value) && SameFront(d.rule, ProtoClause(d, v).value.rule)
  {
  }

  lemma TypeKept(d: Draft, v: Token)
    requires RawDraft(d) && TypeClause(d, v).Ok?
    ensures var e := TypeClause(d, v).value;
      RawDraft(e) && SameFront(d.rule, e.rule) && e.protoSeen == d.protoSeen
  {
  }

  /** One token keeps the draft in shape; only "proto" sets the protocol flag. */
  lemma ClauseKept(d: Draft, key: Token, rest: Args)
    requires RawDraft(d) && Clause(d, key, rest).Ok? && (Is(key, ProtoKey) ==> !d.protoSeen)
    ensures var e := Clause(d, key, rest).value;
      RawDraft(e) && SameFront(d.rule, e.rule) && (e.protoSeen ==> d.protoSeen || Is(key, ProtoKey))
  {
    if IsKey(key) && rest != [] {
      match key.key {
        case ProtoKey => ProtoKept(d, rest[0]);
        case TypeKey => TypeKept(d, rest[0]);
        case InKey => IfaceKept(d, In, rest[0]);
        case OutKey => IfaceKept(d, Out, rest[0]);
        case FromKey => AddrKept(d, Source, rest[0]);
        case ToKey => AddrKept(d, Dest, rest[0]);
        case PortKey => PortKept(d, rest[0]);
        case _ =>
      }
    }
  }

  /** The token loop, when at most one protocol clause is left. */
  lemma {:induction false} ClausesKept(d: Draft, ts: Args, odd: bool)
    requires RawDraft(d) && Clauses(d, ts, odd).Ok?
    requires CountOf(ts, ProtoKey) == 0 || (CountOf(ts, ProtoKey) == 1 && !d.protoSeen)
    ensures RawDraft(Clauses(d, ts, odd).value) && SameFront(d.rule, Clauses(d, ts, odd).value.rule)
    decreases |ts|
  {
    if ts != [] {
      assert [ts[0]] + ts[1..] == ts;
      CountConcat([ts[0]], ts[1..], ProtoKey);
      assert [ts[0]][..0] == [];
      ClauseKept(d, ts[0], ts[1..]);
      ClausesKept(Clause(d, ts[0], ts[1..]).value, ts[1..], !odd);
    }
  }

  // ---- the forms ---------------------------------------------------------------------------------

  predicate RawParsed(r0: Rule, p: Parsed) {
    && RawRule(p.rule) && SameFront(r0, p.rule)
    && FamilyOf(SideFamily(p.rule.src), SideFamily(p.rule.dst)) == Ok(p.family)
  }

  /** A rule before its clauses are read. */
  predicate Bare(r: Rule) {
    RawRule(r) && r.src == AddrSpec(AnyIp, [], "") && r.dst == AddrSpec(AnyIp, [], "") && r.icmpType == None
  }

  lemma ShortKept(r0: Rule, t: Token)
    requires RawRule(r0) && r0.src == r0.dst == AddrSpec(AnyIp, [], "") && r0.icmpType == None && ShortToken(r0, t).Ok?
    ensures RawParsed(r0, Parsed(ShortToken(r0, t).value, Both))
  {
    ItemsRaw(t.items);
  }

  lemma IfaceShortKept(r0: Rule, dir: Direction, n: Token, t: Token)
    requires Bare(r0) && SetIface(r0, dir, n).Ok? && ShortToken(SetIface(r0, dir, n).value, t).Ok?
    ensures RawParsed(r0, Parsed(ShortToken(SetIface(r0, dir, n).value, t).value, Both))
  {
    IfaceSet(r0, dir, n);
    ShortKept(SetIface(r0, dir, n).value, t);
  }

  lemma FullKept(r0: Rule, argv: Args)
    requires Bare(r0) && FullForm(r0, argv).Ok?
    ensures RawParsed(r0, FullForm(r0, argv).value)
  {
    ClausesKept(Draft(r0, NoSide, Both, Both, false), argv, false);
  }

  lemma FormsKept(r0: Rule, hasIface: bool, argv: Args)
    requires Bare(r0) && Forms(r0, hasIface, argv).Ok?
    ensures RawParsed(r0, Forms(r0, hasIface, argv).value)
  {
    if |argv| == 2 {
      ShortKept(r0, argv[1]);
    } else if hasIface && |argv| == 4 {
      IfaceShortKept(r0, DirOf(argv[1]), argv[2], argv[3]);
    } else {
      FullKept(r0, argv);
    }
  }

  // ---- finishing ------------------------------------------------------------------------------------

  /** The finished rule apart from its route fields. */
  function FinishRule(r: Rule): Rule {
    r.(src := r.src.(ports := FinishPorts(r.src.ports, r.proto)), dst := r.dst.(ports := FinishPorts(r.dst.ports, r.proto)))
  }

  lemma FinishedSides(r: Rule)
    requires RawRule(r) && PortsFit(r)
    ensures NormalSide(FinishRule(r).src, r.proto) && NormalSide(FinishRule(r).dst, r.proto) && PortsFit(FinishRule(r))
  {
    FinishedNormal(r.src.ports, r.proto);
    FinishedNormal(r.dst.ports, r.proto);
    FinishedMulti(r.src.ports, r.proto);
    FinishedMulti(r.dst.ports, r.proto);
  }

  /** Routing changes only the direction fields and possibly one interface. */
  lemma RoutedRule(r: Rule, routed: bool, later: Deferral)
    requires RouteRule(r, routed, later).Ok? && r.routeDir == NoRouteDir && (r.dir == In || r.dir == Out)
    requires NormalIface(r.ifaceIn) && NormalIface(r.ifaceOut)
    ensures var q := RouteRule(r, routed, later).value;
      && q == r.(dir := q.dir, routeDir := q.routeDir, ifaceIn := q.ifaceIn, ifaceOut := q.ifaceOut)
      && NormalIface(q.ifaceIn) && NormalIface(q.ifaceOut)
      && (q.Forward() <==> q.routeDir != NoRouteDir)
  {
    if routed && later.Deferred? && TextOf(later.name) != Some("") {
      IfaceSet(MarkRouted(r), later.dir, later.name);
    }
  }

  lemma FinishShape(p: Parsed, routed: bool, later: Deferral)
    requires Finish(p, routed, later).Ok?
    requires p.rule.routeDir == NoRouteDir && (p.rule.dir == In || p.rule.dir == Out)
    requires NormalIface(p.rule.ifaceIn) && NormalIface(p.rule.ifaceOut)
    ensures var q := Finish(p, routed, later).value.rule;
      && q == FinishRule(p.rule).(dir := q.dir, routeDir := q.routeDir, ifaceIn := q.ifaceIn, ifaceOut := q.ifaceOut)
      && NormalIface(q.ifaceIn) && NormalIface(q.ifaceOut) && (q.Forward() <==> q.routeDir != NoRouteDir)
    ensures NarrowFamily(p.rule.proto, p.family).Ok? && PortsFit(p.rule)
  {
    RoutedRule(StampRule(p.rule), routed, later);
  }

  lemma FinishedRule(r0: Rule, p: Parsed, routed: bool, later: Deferral)
    requires RawParsed(r0, p) && Finish(p, routed, later).Ok?
    requires r0.action != UnknownAction && '\'' !in r0.comment
    requires r0.routeDir == NoRouteDir && (r0.dir == In || r0.dir == Out)
    ensures ParserNormal(Finish(p, routed, later).value.rule)
  {
    FinishShape(p, routed, later);
    FinishedSides(p.rule);
  }

  lemma CommentKept(argv: Args)
    requires TakeComment(argv).Ok?
    ensures '\'' !in TakeComment(argv).value.comment
  {
  }

  lemma FrontKept(argv: Args)
    requires TakeFront(argv).Ok?
    ensures var f := TakeFront(argv).value;
      f.action != UnknownAction && (f.dir == In || f.dir == Out) && '\'' !in f.comment
  {
    var i := TakeIface(TakeDirection(argv).argv).value;
    CommentKept(TakeLog(i.found, i.argv).value.argv);
  }

  /** Whatever the parser accepts is in normal form. */
  lemma ParsedIsNormal(id: string, args: Args)
    requires ParseArgs(id, args).Ok?
    ensures ParserNormal(ParseArgs(id, args).value.rule)
  {
    var (routed, route) := TakeRoute(args).value;
    FrontKept(route.argv);
    var f := TakeFront(route.argv).value;
    var r0 := NewRule(id, f.action, f.dir, f.log, f.comment);
    FormsKept(r0, f.hasIface, f.argv);
    FinishedRule(r0, ParseFront(id, f).value, routed, route.later);
  }

  /** Printing and parsing again what the parser accepted restores it iff the command says
      all of it, provided its names and comment are no words of the grammar. */
  lemma ReparseRestores(id: string, args: Args, again: string)
    requires ParseArgs(id, args).Ok? && CleanNames(ParseArgs(id, args).value.rule)
    ensures var r := ParseArgs(id, args).value.rule; Restored(again, r) <==> SaysAll(r)
  {
    ParsedIsNormal(id, args);
    ParserUndoesPrinter(again, ParseArgs(id, args).value.rule);
  }

  // ---- a command that does not survive ------------------------------------------------------------

  /** "allow from PREFIX" */
  function FromPrefix(ip: Ip): Args {
    [Plain("allow"), Key(FromKey), Address(ip)]
  }

  predicate Anywhere(ip: Ip) {
    ip.Net? && ip.ones == 0 && (|ip.bytes| == 4 || |ip.bytes| == 16) && ip.Valid()
  }

  lemma PrefixDirection(ip: Ip)
    ensures TakeRoute(FromPrefix(ip)) == Ok((false, Route(NotDeferred, FromPrefix(ip))))
    ensures TakeDirection(FromPrefix(ip)) == Directed(In, FromPrefix(ip))
    ensures TakeIface(FromPrefix(ip)) == Ok(Stripped(false, FromPrefix(ip)))
  {
    NoRouteWord(FromPrefix(ip));
    NoClause(FromPrefix(ip));
  }

  lemma PrefixLacks(ip: Ip, k: Keyword)
    requires k != FromKey
    ensures IndexOf(FromPrefix(ip), k) < 0
  {
    assert Lacks(FromPrefix(ip), k);
  }

  lemma PrefixFlags(ip: Ip)
    ensures TakeLog(false, FromPrefix(ip)) == Ok(Logged(LogNone, FromPrefix(ip)))
    ensures TakeComment(FromPrefix(ip)) == Ok(Commented("", FromPrefix(ip)))
  {
    PrefixLacks(ip, LogKey);
    PrefixLacks(ip, LogAllKey);
    PrefixLacks(ip, CommentKey);
  }

  lemma PrefixFolded(ip: Ip)
    ensures FoldSets(FromPrefix(ip)) == Ok(FromPrefix(ip))
  {
    var pair := [Key(FromKey), Address(ip)];
    FoldHead(Plain("allow"), pair);
    FoldPlainClause(FromKey, Address(ip), []);
    assert pair + [] == pair && [Plain("allow")] + pair == FromPrefix(ip);
    assert FoldSets([]) == Ok([]);
  }

  lemma PrefixFront(ip: Ip)
    ensures TakeFront(FromPrefix(ip)) == Ok(Front(Allow, In, false, LogNone, "", FromPrefix(ip)))
  {
    PrefixDirection(ip);
    PrefixFlags(ip);
    PrefixFolded(ip);
    assert ActionOf(FromPrefix(ip)[0]) == Some(Allow);
  }

  lemma PrefixCounts(ip: Ip, k: Keyword)
    ensures CountOf(FromPrefix(ip), k) == if k == FromKey then 1 else 0
  {
    CountConcat([Plain("allow")], [Key(FromKey), Address(ip)], k);
    CountTwo(Key(FromKey), Address(ip), k);
    CountLacks([Plain("allow")], k);
    assert FromPrefix(ip) == [Plain("allow")] + [Key(FromKey), Address(ip)];
  }

  lemma PrefixClauses(id: string, ip: Ip)
    requires Anywhere(ip)
    ensures var d := Draft(NewRule(id, Allow, In, LogNone, ""), NoSide, Both, Both, false);
      Clauses(d, FromPrefix(ip), false) == AddrClause(d, Source, Address(ip))
  {
    var d := Draft(NewRule(id, Allow, In, LogNone, ""), NoSide, Both, Both, false);
    var pair := [Key(FromKey), Address(ip)];
    assert FromPrefix(ip) == [Plain("allow")] + pair && pair == pair + [];
    ActionSkipped(d, Plain("allow"), pair);
    DispatchAddr(d, Source, Address(ip), []);
    PairRead(d, Key(FromKey), Address(ip), [], AddrClause(d, Source, Address(ip)).value);
  }

  lemma PrefixForms(id: string, ip: Ip)
    requires Anywhere(ip)
    ensures var r0 := NewRule(id, Allow, In, LogNone, "");
      ParseFront(id, Front(Allow, In, false, LogNone, "", FromPrefix(ip)))
      == Ok(Parsed(r0.(src := AddrSpec(ip, [], "")), if |ip.bytes| == 4 then V4 else V6))
  {
    var r0, argv := NewRule(id, Allow, In, LogNone, ""), FromPrefix(ip);
    PrefixCounts(ip, ToKey);
    PrefixCounts(ip, FromKey);
    PrefixCounts(ip, ProtoKey);
    PrefixCounts(ip, PortKey);
    PrefixCounts(ip, TypeKey);
    PrefixCounts(ip, InKey);
    PrefixCounts(ip, OutKey);
    PrefixCounts(ip, AppKey);
    PrefixClauses(id, ip);
    assert Is(argv[1], FromKey);
    OddForms(r0, false, argv, FullForm(r0, argv).value);
  }

  function PrefixRule(id: string, ip: Ip): Rule {
    NewRule(id, Allow, In, LogNone, "").(src := AddrSpec(ip, [], ""))
  }

  lemma PrefixFinished(id: string, ip: Ip, f: Family)
    ensures Finish(Parsed(PrefixRule(id, ip), f), false, NotDeferred) == Ok(Op(PrefixRule(id, ip), false, f))
  {
    assert StampPorts([], AnyProto) == [] && SortPorts([]) == [];
  }

  lemma PrefixParsed(id: string, ip: Ip)
    requires Anywhere(ip)
    ensures ParseArgs(id, FromPrefix(ip)) == Ok(Op(PrefixRule(id, ip), false, if |ip.bytes| == 4 then V4 else V6))
  {
    PrefixDirection(ip);
    PrefixFront(ip);
    PrefixForms(id, ip);
    PrefixFinished(id, ip, if |ip.bytes| == 4 then V4 else V6);
  }

  /** "allow from 0.0.0.0/0" is accepted, but prints as "allow to any", which stands for
      another tuple. */
  lemma WildcardPrefixLost(id: string, again: string, ip: Ip)
    requires Anywhere(ip)
    ensures ParseArgs(id, FromPrefix(ip)).Ok?
    ensures !Restored(again, ParseArgs(id, FromPrefix(ip)).value.rule)
  {
    PrefixParsed(id, ip);
    ReparseRestores(id, FromPrefix(ip), again);
  }

  // ---- a command that is not accepted back -------------------------------------------------------

  /** "allow in on A out B to any", with and without its "on" */
  function TwoFaces(a: string, b: string): Args {
    [Plain("allow"), Key(InKey), Key(OnKey), Plain(a)] + Faced(b)
  }

  function Faced(b: string): Args {
    [Key(OutKey), Plain(b), Key(ToKey), Key(AnyKey)]
  }

  function FacedArgs(a: string, b: string): Args {
    [Plain("allow"), Key(InKey), Plain(a)] + Faced(b)
  }

  predicate IfaceWord(a: string) {
    ValidIface(a) && CleanName(a)
  }

  lemma FacesFront(a: string, b: string)
    ensures TakeRoute(TwoFaces(a, b)) == Ok((false, Route(NotDeferred, TwoFaces(a, b))))
    ensures TakeDirection(TwoFaces(a, b)) == Directed(In, TwoFaces(a, b))
    ensures TakeIface(TwoFaces(a, b)) == Ok(Stripped(true, FacedArgs(a, b)))
  {
    NoRouteWord(TwoFaces(a, b));
    OneClause(Plain("allow"), InKey, Plain(a), Faced(b));
  }

  lemma FacesLack(a: string, b: string, k: Keyword)
    requires k != InKey && k != OutKey && k != ToKey && k != AnyKey
    ensures Lacks(FacedArgs(a, b), k)
  {
  }

  lemma FacesFlags(a: string, b: string)
    ensures TakeLog(true, FacedArgs(a, b)) == Ok(Logged(LogNone, FacedArgs(a, b)))
    ensures TakeComment(FacedArgs(a, b)) == Ok(Commented("", FacedArgs(a, b)))
  {
    FacesLack(a, b, LogKey);
    FacesLack(a, b, LogAllKey);
    FacesLack(a, b, CommentKey);
  }

  lemma NothingToFold(t: Token, rest: Args)
    requires !Is(t, FromKey) && !Is(t, ToKey) && FoldSets(rest) == Ok(rest)
    ensures FoldSets([t] + rest) == Ok([t] + rest)
  {
    FoldHead(t, rest);
  }

  lemma FacesFolded(a: string, b: string)
    ensures FoldSets(FacedArgs(a, b)) == Ok(FacedArgs(a, b))
  {
    var to := [Key(ToKey), Key(AnyKey)];
    FoldPlainClause(ToKey, Key(AnyKey), []);
    assert FoldSets([]) == Ok([]) && to + [] == to;
    NothingToFold(Plain(b), to);
    NothingToFold(Key(OutKey), [Plain(b)] + to);
    assert [Key(OutKey)] + ([Plain(b)] + to) == Faced(b);
    NothingToFold(Plain(a), Faced(b));
    NothingToFold(Key(InKey), [Plain(a)] + Faced(b));
    NothingToFold(Plain("allow"), [Key(InKey)] + ([Plain(a)] + Faced(b)));
    assert [Plain("allow")] + ([Key(InKey)] + ([Plain(a)] + Faced(b))) == FacedArgs(a, b);
  }

  lemma FacesTaken(a: string, b: string)
    ensures TakeFront(TwoFaces(a, b)) == Ok(Front(Allow, In, true, LogNone, "", FacedArgs(a, b)))
  {
    FacesFront(a, b);
    FacesFlags(a, b);
    FacesFolded(a, b);
    assert ActionOf(TwoFaces(a, b)[0]) == Some(Allow);
  }

  lemma PairsCount(x: Args, y: Args, k: Keyword)
    requires |x| == 2 && |y| == 2
    ensures CountOf(x + y, k) == Bit(Is(x[0], k)) + Bit(Is(x[1], k)) + Bit(Is(y[0], k)) + Bit(Is(y[1], k))
  {
    CountConcat(x, y, k);
    assert x == [x[0], x[1]] && y == [y[0], y[1]];
    CountTwo(x[0], x[1], k);
    CountTwo(y[0], y[1], k);
  }

  lemma FacesCounts(a: string, b: string, k: Keyword)
    ensures CountOf(FacedArgs(a, b), k) == if k == InKey || k == OutKey || k == ToKey || k == AnyKey then 1 else 0
  {
    var head := [Plain("allow"), Key(InKey), Plain(a)];
    assert FacedArgs(a, b) == head[..1] + head[1..] + Faced(b);
    CountConcat(head[..1] + head[1..], Faced(b), k);
    CountConcat(head[..1], head[1..], k);
    CountLacks(head[..1], k);
    CountTwo(head[1], head[2], k);
    PairsCount([Key(OutKey), Plain(b)], [Key(ToKey), Key(AnyKey)], k);
    assert [Key(OutKey), Plain(b)] + [Key(ToKey), Key(AnyKey)] == Faced(b);
  }

  function FacedRule(id: string, a: string, b: string): Rule
    requires ValidIface(a) && ValidIface(b)
  {
    NewRule(id, Allow, In, LogNone, "").(ifaceIn := NameOf(a), ifaceOut := NameOf(b))
  }

  lemma FaceRead(d: Draft, k: Keyword, name: string, rest: Args)
    requires (k == InKey || k == OutKey) && ValidIface(name)
    ensures Clauses(d, [Key(k), Plain(name)] + rest, true)
         == Clauses(d.(rule := if k == InKey then d.rule.(ifaceIn := NameOf(name)) else d.rule.(ifaceOut := NameOf(name))), rest, true)
  {
    DispatchIface(d, k, Plain(name), rest);
    PairRead(d, Key(k), Plain(name), rest, IfaceClause(d, if k == InKey then In else Out, Plain(name)).value);
  }

  lemma AnyRead(d: Draft)
    requires d.rule.dst == AddrSpec(AnyIp, [], "") && d.to == Both
    ensures Clauses(d, [Key(ToKey), Key(AnyKey)], true) == Ok(d.(side := Dest))
  {
    var z := [Key(ToKey), Key(AnyKey)];
    assert z + [] == z;
    DispatchAddr(d, Dest, z[1], []);
    PairRead(d, z[0], z[1], [], d.(side := Dest));
  }

  lemma FacesClauses(id: string, a: string, b: string)
    requires ValidIface(a) && ValidIface(b)
    ensures Clauses(Draft(NewRule(id, Allow, In, LogNone, ""), NoSide, Both, Both, false), FacedArgs(a, b), false)
         == Ok(Draft(FacedRule(id, a, b), Dest, Both, Both, false))
  {
    var d := Draft(NewRule(id, Allow, In, LogNone, ""), NoSide, Both, Both, false);
    var x, y, z := [Key(InKey), Plain(a)], [Key(OutKey), Plain(b)], [Key(ToKey), Key(AnyKey)];
    assert FacedArgs(a, b) == [Plain("allow")] + (x + (y + z));
    ActionSkipped(d, Plain("allow"), x + (y + z));
    FaceRead(d, InKey, a, y + z);
    FaceRead(d.(rule := d.rule.(ifaceIn := NameOf(a))), OutKey, b, z);
    AnyRead(d.(rule := FacedRule(id, a, b)));
  }

  lemma FacesForms(id: string, a: string, b: string)
    requires ValidIface(a) && ValidIface(b)
    ensures ParseFront(id, Front(Allow, In, true, LogNone, "", FacedArgs(a, b))) == Ok(Parsed(FacedRule(id, a, b), Both))
  {
    var r0, argv := NewRule(id, Allow, In, LogNone, ""), FacedArgs(a, b);
    FacesCounts(a, b, ToKey);
    FacesCounts(a, b, FromKey);
    FacesCounts(a, b, ProtoKey);
    FacesCounts(a, b, PortKey);
    FacesCounts(a, b, TypeKey);
    FacesCounts(a, b, InKey);
    FacesCounts(a, b, OutKey);
    FacesCounts(a, b, AppKey);
    FacesClauses(id, a, b);
    assert Is(argv[1], InKey);
    OddForms(r0, true, argv, FullForm(r0, argv).value);
  }

  lemma FacesFinished(id: string, a: string, b: string)
    requires ValidIface(a) && ValidIface(b)
    ensures Finish(Parsed(FacedRule(id, a, b), Both), false, NotDeferred) == Ok(Op(FacedRule(id, a, b), false, Both))
  {
    assert StampPorts([], AnyProto) == [] && SortPorts([]) == [];
  }

  lemma FacesParsed(id: string, a: string, b: string)
    requires ValidIface(a) && ValidIface(b)
    ensures ParseArgs(id, TwoFaces(a, b)) == Ok(Op(FacedRule(id, a, b), false, Both))
  {
    FacesFront(a, b);
    FacesTaken(a, b);
    FacesForms(id, a, b);
    FacesFinished(id, a, b);
  }

  /** "allow in on A out B to any" is accepted and makes a rule with both interfaces that is
      not routed; the command printed for it is refused. */
  lemma BothInterfacesRefused(id: string, again: string, a: string, b: string)
    requires IfaceWord(a) && IfaceWord(b)
    ensures ParseArgs(id, TwoFaces(a, b)) == Ok(Op(FacedRule(id, a, b), false, Both))
    ensures Misdirected(FacedRule(id, a, b)) && ParseArgs(again, CommandOf(FacedRule(id, a, b))) == Err
  {
    FacesParsed(id, a, b);
    ParsedIsNormal(id, TwoFaces(a, b));
    assert NameText(NameOf(a)) == a && NameText(NameOf(b)) == b;
    MisdirectedRefused(again, FacedRule(id, a, b));
  }

  /** "eth0" and its like are such names. */
  lemma EthernetName(s: string)
    requires |s| == 4 && s[0] == 'e' && s[1] == 't' && s[2] == 'h' && '0' <= s[3] <= '9'
    ensures IfaceWord(s)
  {
    NoWord(s);
  }

  lemma NoWord(s: string)
    requires |s| == 4 && s[0] == 'e'
    ensures Lex(s) == Plain(s)
  {
    NoKeyword(s, KEYWORDS);
  }

  lemma {:induction false} NoKeyword(s: string, keys: seq<Keyword>)
    requires |s| == 4 && s[0] == 'e'
    ensures KeywordOf(s, keys) == None
  {
    if keys != [] {
      assert Lower(s)[0] == 'e' && Spelling(keys[0])[0] != 'e';
      NoKeyword(s, keys[1..]);
    }
  }

  /** "allow in on eth0 out eth1 to any" is one of these commands. */
  lemma EthernetRefused(id: string, again: string)
    ensures ParseArgs(id, TwoFaces("eth0", "eth1")).Ok?
    ensures ParseArgs(again, CommandOf(ParseArgs(id, TwoFaces("eth0", "eth1")).value.rule)) == Err
  {
    EthernetName("eth0");
    EthernetName("eth1");
    BothInterfacesRefused(id, again, "eth0", "eth1");
  }
}
