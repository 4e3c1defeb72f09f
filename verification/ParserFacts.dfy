/** What the parser accepts and what a command means, in outright words, numbers and fields. */
module ParserFacts {
  import opened Bytes
  import opened Rules
  import opened PortOrder
  import opened AddressText
  import opened Command
  import opened Parser
  import opened Reparse
  import opened ReparseFront
  import opened ReparseBody
  import opened RoundTrip
  import opened ParsedNormal
  import opened ParserLaws

  // ---- words ---------------------------------------------------------------------------------------

  /** The words of the grammar as the user types them. */
  function Typed(k: Keyword): string {
    match k
    case AnyKey => "any"
    case AppKey => "app"
    case CommentKey => "comment"
    case FromKey => "from"
    case InKey => "in"
    case LogKey => "log"
    case LogAllKey => "log-all"
    case OnKey => "on"
    case OutKey => "out"
    case PortKey => "port"
    case ProtoKey => "proto"
    case RouteKey => "route"
    case RuleKey => "rule"
    case SetKey => "set"
    case ToKey => "to"
    case TypeKey => "type"
  }

  lemma TypedApart(a: Keyword, b: Keyword)
    requires Typed(a) == Typed(b)
    ensures a == b
  {
    var x, y := Typed(a), Typed(b);
    assert |x| == |y|;
    assert x[0] == y[0] && x[1] == y[1] && x[|x| - 1] == y[|y| - 1];
  }

  lemma TypedSpells(k: Keyword)
    ensures Typed(k) == Spelling(k) && k in KEYWORDS
  {
    assert KEYWORDS[match k
      case RouteKey => 0 case RuleKey => 1 case InKey => 2 case OutKey => 3
      case OnKey => 4 case LogKey => 5 case LogAllKey => 6 case CommentKey => 7
      case FromKey => 8 case ToKey => 9 case SetKey => 10 case PortKey => 11
      case ProtoKey => 12 case TypeKey => 13 case AppKey => 14 case AnyKey => 15] == k;
  }

  lemma {:induction false} KeywordFound(s: string, keys: seq<Keyword>, k: Keyword)
    requires k in keys && Lower(s) == Typed(k)
    ensures KeywordOf(s, keys) == Some(k)
  {
    TypedSpells(k);
    TypedSpells(keys[0]);
    if keys[0] == k {
    } else {
      if Lower(s) == Spelling(keys[0]) {
        TypedApart(k, keys[0]);
        assert false;
      }
      KeywordFound(s, keys[1..], k);
    }
  }

  /** s is the text, with letters from A (65) to Z (90) for those from a (97) to z. */
  predicate Spells(s: string, text: string) {
    && |s| == |text|
    && forall i :: 0 <= i < |s| ==> text[i] as int == if 65 <= s[i] as int <= 90 then s[i] as int + 32 else s[i] as int
  }

  lemma LowerReads(s: string, text: string)
    ensures Lower(s) == text <==> Spells(s, text)
  {
    assert |Lower(s)| == |s|;
    forall i | 0 <= i < |s| ensures Lower(s)[i] as int == if 65 <= s[i] as int <= 90 then s[i] as int + 32 else s[i] as int {
    }
    if Spells(s, text) {
      assert forall i :: 0 <= i < |s| ==> Lower(s)[i] == text[i];
    }
  }

  /** An argument is a word of the grammar exactly if it spells it in any case, and the parser's
      exact comparison holds exactly for the lower-case spelling. */
  lemma WordsRead(s: string, k: Keyword)
    ensures IsLower(Lex(s), k) <==> Spells(s, Typed(k))
    ensures Is(Lex(s), k) <==> s == Typed(k)
  {
    TypedSpells(k);
    LowerReads(s, Typed(k));
    TypedLower(k);
    if Lower(s) == Typed(k) {
      KeywordFound(s, KEYWORDS, k);
    }
    if IsLower(Lex(s), k) {
      LexText(s);
    }
  }

  lemma TypedLower(k: Keyword)
    ensures Lower(Typed(k)) == Typed(k)
  {
    assert forall i :: 0 <= i < |Typed(k)| ==> Typed(k)[i] > 'Z' || Typed(k)[i] == '-';
  }

  // ---- what an accepted rule is ------------------------------------------------------------------

  function NetFamily(a: AddrSpec): Family {
    if !a.ip.Net? then Both else if |a.ip.bytes| == 4 then V4 else V6
  }

  /** The ports of one side: in range, of the rule's protocol, and few enough. */
  predicate GoodPorts(ports: seq<PortRange>, proto: Proto) {
    && (forall i :: 0 <= i < |ports| ==>
          && 1 <= ports[i].lo <= ports[i].hi <= 65535
          && ports[i].proto == (match proto case Tcp => TcpPort case Udp => UdpPort case _ => AnyPort))
    && |ports| <= 15
    && (ports != [] ==> proto == Tcp || proto == Udp || proto == AnyProto)
    && (|ports| > 1 || (|ports| == 1 && ports[0].lo != ports[0].hi) ==> proto == Tcp || proto == Udp)
  }

  lemma NormalGood(ports: seq<PortRange>, proto: Proto)
    requires NormalPorts(ports, proto) && (Portless(proto) ==> ports == [])
    requires MultiPorts(ports) ==> proto == Tcp || proto == Udp
    ensures GoodPorts(ports, proto)
  {
  }

  /** Ports only with tcp, udp or no protocol, several or a range only with tcp or udp, ICMP types
      only with ICMP. */
  lemma AcceptedRule(id: string, args: Args)
    requires ParseArgs(id, args).Ok?
    ensures var r := ParseArgs(id, args).value.rule;
      && GoodPorts(r.src.ports, r.proto) && GoodPorts(r.dst.ports, r.proto)
      && (r.icmpType.Some? ==> r.proto == Icmp || r.proto == Icmpv6)
      && r.dapp == "" && r.sapp == "" && '\'' !in r.comment
      && (r.dir == Routed <==> r.routeDir != NoRouteDir)
  {
    ParsedIsNormal(id, args);
    var r := ParseArgs(id, args).value.rule;
    NormalGood(r.src.ports, r.proto);
    NormalGood(r.dst.ports, r.proto);
  }

  lemma FinishFamily(p: Parsed, routed: bool, later: Deferral)
    requires Finish(p, routed, later).Ok?
    ensures var op := Finish(p, routed, later).value;
      && NarrowFamily(p.rule.proto, p.family) == Ok(op.family) && op.routed == routed
      && op.rule.proto == p.rule.proto && op.rule.src.ip == p.rule.src.ip && op.rule.dst.ip == p.rule.dst.ip
  {
  }

  /** What the addresses and the protocol of a rule say about its family. */
  predicate FamilySays(src: Family, dst: Family, proto: Proto, family: Family) {
    && (src != Both ==> family == src) && (dst != Both ==> family == dst)
    && (proto == Icmpv6 ==> family == V6)
    && (proto == Icmp || proto == Igmp || proto == Ipv6 ==> family == V4)
    && (src == Both && dst == Both && proto in [AnyProto, Tcp, Udp, Ah, Esp, Gre, Vrrp] ==> family == Both)
  }

  lemma FamilyNarrowed(src: Family, dst: Family, proto: Proto, family: Family)
    requires FamilyOf(src, dst).Ok? && NarrowFamily(proto, FamilyOf(src, dst).value) == Ok(family)
    ensures FamilySays(src, dst, proto, family)
  {
  }

  lemma ParsedFamily(p: Parsed, routed: bool, later: Deferral)
    requires Finish(p, routed, later).Ok? && FamilyOf(SideFamily(p.rule.src), SideFamily(p.rule.dst)) == Ok(p.family)
    ensures var op := Finish(p, routed, later).value;
      FamilySays(NetFamily(op.rule.src), NetFamily(op.rule.dst), op.rule.proto, op.family)
  {
    FinishFamily(p, routed, later);
    FamilyNarrowed(SideFamily(p.rule.src), SideFamily(p.rule.dst), p.rule.proto, Finish(p, routed, later).value.family);
  }

  /** The family of an accepted rule is that of its addresses, and of its protocol when that exists
      in one family only; where neither says, it is both. */
  lemma AcceptedFamily(id: string, args: Args)
    requires ParseArgs(id, args).Ok?
    ensures var op := ParseArgs(id, args).value;
      FamilySays(NetFamily(op.rule.src), NetFamily(op.rule.dst), op.rule.proto, op.family)
  {
    var (routed, route) := TakeRoute(args).value;
    FrontKept(route.argv);
    var f := TakeFront(route.argv).value;
    FormsKept(NewRule(id, f.action, f.dir, f.log, f.comment), f.hasIface, f.argv);
    ParsedFamily(ParseFront(id, f).value, routed, route.later);
  }

  // ---- words in front -----------------------------------------------------------------------------

  lemma SameRoute(id: string, x: Args, y: Args)
    requires TakeRoute(x) == TakeRoute(y)
    ensures ParseArgs(id, x) == ParseArgs(id, y)
  {
  }

  lemma RuleWordTaken(a: Token, rest: Args)
    requires a.Plain?
    ensures TakeRoute([Key(RuleKey), a] + rest) == TakeRoute([a] + rest)
  {
    assert ([Key(RuleKey), a] + rest)[1..] == [a] + rest;
  }

  lemma RouteRuleTaken(a: Token, rest: Args)
    requires a.Plain?
    ensures TakeRoute([Key(RouteKey), Key(RuleKey), a] + rest) == TakeRoute([Key(RouteKey), a] + rest)
  {
    assert ([Key(RouteKey), Key(RuleKey), a] + rest)[1..] == [Key(RuleKey), a] + rest;
    assert ([Key(RuleKey), a] + rest)[1..] == [a] + rest;
    assert ([Key(RouteKey), a] + rest)[1..] == [a] + rest;
  }

  /** "rule" in front of a command says nothing. */
  lemma RuleWord(id: string, a: Token, rest: Args)
    requires a.Plain?
    ensures ParseArgs(id, [Key(RuleKey), a] + rest) == ParseArgs(id, [a] + rest)
    ensures ParseArgs(id, [Key(RouteKey), Key(RuleKey), a] + rest) == ParseArgs(id, [Key(RouteKey), a] + rest)
  {
    RuleWordTaken(a, rest);
    RouteRuleTaken(a, rest);
    SameRoute(id, [Key(RuleKey), a] + rest, [a] + rest);
    SameRoute(id, [Key(RouteKey), Key(RuleKey), a] + rest, [Key(RouteKey), a] + rest);
  }

  function RouteMarked(x: Result<Op>): Result<Op> {
    match x
    case Err => Err
    case Ok(op) => Ok(op.(routed := true, rule := op.rule.(dir := Routed, routeDir := RouteIn)))
  }

  lemma FinishRouted(p: Parsed)
    requires p.rule.dir == In
    ensures Finish(p, true, NotDeferred) == RouteMarked(Finish(p, false, NotDeferred))
  {
  }

  lemma RouteUndeferred(a: Token, rest: Args)
    requires AllDirFree([a] + rest)
    ensures DeferSecond([a] + rest) == Ok(Route(NotDeferred, [a] + rest))
  {
    var ws := JoinedWords([a] + rest);
    JoinedDirFree([a] + rest);
    Undeferred([a] + rest);
  }

  lemma FormsDir(id: string, f: Front)
    requires ParseFront(id, f).Ok?
    ensures ParseFront(id, f).value.rule.dir == f.dir
  {
    ParseFrontMarks(id, f, f);
  }

  /** "route" in front of a command without directions makes the same rule a routed one. */
  lemma RoutePrefix(id: string, a: Token, rest: Args)
    requires ActionWordToken(a) && AllDirFree([a] + rest)
    ensures ParseArgs(id, [Key(RouteKey), a] + rest) == RouteMarked(ParseArgs(id, [a] + rest))
  {
    var args := [a] + rest;
    NoRoute(a, rest);
    RouteUndeferred(a, rest);
    RouteWord(args, Route(NotDeferred, args));
    assert [Key(RouteKey), a] + rest == [Key(RouteKey)] + args;
    if TakeFront(args).Ok? {
      var f := TakeFront(args).value;
      assert f.dir == In by {
        assert |args| >= 2 && DirFree(args[1]);
        WordItself(args[1]);
      }
      if ParseFront(id, f).Ok? {
        FormsDir(id, f);
        FinishRouted(ParseFront(id, f).value);
      }
    }
  }

  lemma WordItself(t: Token)
    requires DirFree(t)
    ensures !IsDir(t)
  {
    if !t.Plain? {
      assert Pieces(t)[0] == t;
    }
  }

  /** Two interface clauses in either order: the second one is put aside with its direction. */
  lemma OutThenIn(a: Token, into: string, out: string, rest: Args)
    requires ActionWordToken(a) && CleanName(out) && CleanName(into)
    ensures TakeRoute([Key(RouteKey)] + ([a, Key(OutKey), Key(OnKey), Lex(out), Key(InKey), Key(OnKey), Lex(into)] + rest))
      == Ok((true, Route(Deferred(In, Lex(into)), [a, Key(OutKey), Key(OnKey), Lex(out)] + rest)))
  {
    var argv := [a, Key(OutKey), Key(OnKey), Lex(out), Key(InKey), Key(OnKey), Lex(into)] + rest;
    OutDeferred(a, into, out, rest);
    RouteWord(argv, Route(Deferred(In, Lex(into)), [a, Key(OutKey), Key(OnKey), Lex(out)] + rest));
  }

  lemma OutDeferred(a: Token, into: string, out: string, rest: Args)
    requires ActionWordToken(a) && CleanName(out) && CleanName(into)
    ensures DeferSecond([a, Key(OutKey), Key(OnKey), Lex(out), Key(InKey), Key(OnKey), Lex(into)] + rest)
      == Ok(Route(Deferred(In, Lex(into)), [a, Key(OutKey), Key(OnKey), Lex(out)] + rest))
  {
    OutInWords(a, into, out, rest);
    OutInPositions(a, into, out, rest);
  }

  lemma OutInWords(a: Token, into: string, out: string, rest: Args)
    requires ActionWordToken(a) && CleanName(out) && CleanName(into)
    ensures var ws := JoinedWords([a, Key(OutKey), Key(OnKey), Lex(out), Key(InKey), Key(OnKey), Lex(into)] + rest);
      HasPair(ws, InKey, OnKey) && HasPair(ws, OutKey, OnKey)
  {
    var clauses := [Key(OutKey), Key(OnKey), Lex(out)] + [Key(InKey), Key(OnKey), Lex(into)];
    JoinedConcat([Key(OutKey), Key(OnKey), Lex(out)], [Key(InKey), Key(OnKey), Lex(into)]);
    TripleJoined(OutKey, out);
    TripleJoined(InKey, into);
    OneWordAction(a);
    assert [a, Key(OutKey), Key(OnKey), Lex(out), Key(InKey), Key(OnKey), Lex(into)] + rest == [a] + (clauses + rest);
    JoinedConcat([a], clauses + rest);
    JoinedConcat(clauses, rest);
    var ws := JoinedWords([a] + (clauses + rest));
    assert |JoinedWords([a])| == 1;
    assert ws == JoinedWords([a]) + (clauses + JoinedWords(rest));
    assert Is(ws[1], OutKey) && Is(ws[2], OnKey) && Is(ws[4], InKey) && Is(ws[5], OnKey) && |ws| >= 7;
  }

  lemma OneWordAction(a: Token)
    requires ActionWordToken(a)
    ensures |JoinedWords([a])| == 1
  {
    OneWord(a.text);
    assert [a][1..] == [];
  }

  lemma OutInPositions(a: Token, into: string, out: string, rest: Args)
    requires ActionWordToken(a) && CleanName(out)
    ensures var argv := [a, Key(OutKey), Key(OnKey), Lex(out), Key(InKey), Key(OnKey), Lex(into)] + rest;
      && IndexOf(argv, OutKey) == 1 && IndexOf(argv, InKey) == 4 && argv[6] == Lex(into)
      && argv[..4] + argv[7..] == [a, Key(OutKey), Key(OnKey), Lex(out)] + rest
  {
    var argv := [a, Key(OutKey), Key(OnKey), Lex(out), Key(InKey), Key(OnKey), Lex(into)] + rest;
    assert argv[..1] == [a];
    IndexAt(argv, OutKey, 1);
    assert argv[..4] == [a, Key(OutKey), Key(OnKey), Lex(out)];
    IndexAt(argv, InKey, 4);
    assert argv[7..] == rest;
  }

  /** A routed rule keeps its first direction, and the clause put aside names the other interface. */
  lemma RoutedFinish(p: Parsed, later: Deferral)
    requires Finish(p, true, later).Ok?
    ensures var r := Finish(p, true, later).value.rule;
      && r.dir == Routed && (p.rule.dir == Out ==> r.routeDir == RouteOut) && (p.rule.dir == In ==> r.routeDir == RouteIn)
      && (later == NotDeferred ==> r.ifaceIn == p.rule.ifaceIn && r.ifaceOut == p.rule.ifaceOut)
      && (later.Deferred? && later.dir == In && later.name.Plain? && later.name.text != "" ==>
            NameText(r.ifaceIn) == later.name.text && r.ifaceOut == p.rule.ifaceOut)
      && (later.Deferred? && later.dir == Out && later.name.Plain? && later.name.text != "" ==>
            NameText(r.ifaceOut) == later.name.text && r.ifaceIn == p.rule.ifaceIn)
  {
    if later.Deferred? && later.name.Plain? && later.name.text != "" && ValidIface(later.name.text) {
      assert NameText(NameOf(later.name.text)) == later.name.text;
    }
  }

  // ---- clauses -------------------------------------------------------------------------------------

  predicate Key8(t: Token) {
    t.Word? && t.exact && t.key in [FromKey, ToKey, PortKey, ProtoKey, TypeKey, InKey, OutKey, AppKey]
  }

  /** Every other argument is a key, beginning with the first or the second. */
  predicate KeysAlternate(ts: Args, now: bool)
    decreases |ts|
  {
    ts == [] || ((now ==> Key8(ts[0])) && KeysAlternate(ts[1..], !now))
  }

  lemma {:induction false} OddAreKeys(d: Draft, ts: Args, odd: bool)
    requires Clauses(d, ts, odd).Ok?
    ensures KeysAlternate(ts, odd)
    decreases |ts|
  {
    if ts != [] {
      OddAreKeys(Clause(d, ts[0], ts[1..]).value, ts[1..], !odd);
    }
  }

  lemma CountTail(a: Token, rest: Args, k: Keyword)
    requires ActionWordToken(a)
    ensures CountOf([a] + rest, k) == CountOf(rest, k)
  {
    CountConcat([a], rest, k);
    CountLacks([a], k);
  }

  predicate Mentions(rest: Args) {
    exists i :: 0 <= i < |rest| && (Is(rest[i], FromKey) || Is(rest[i], ToKey))
  }

  /** Clauses are at most six pairs that begin with a key. */
  lemma AcceptedShape(id: string, a: Token, rest: Args)
    requires ActionWordToken(a) && NothingInFront(rest) && Lacks(rest, SetKey)
    requires |rest| > 1 && ParseArgs(id, [a] + rest).Ok?
    ensures |rest| <= 12 && |rest| % 2 == 0 && KeysAlternate(rest, true)
  {
    AcceptedFull(id, a, rest);
    EvenBehind(a, rest);
    KeysBehind(a, rest);
  }

  lemma EvenBehind(a: Token, rest: Args)
    requires |[a] + rest| <= 13 && (|[a] + rest| + 1) % 2 == 0
    ensures |rest| <= 12 && |rest| % 2 == 0
  {
    assert |[a] + rest| == |rest| + 1;
  }

  /** At most two ports and one of every other clause. */
  predicate FewClauses(rest: Args) {
    && CountOf(rest, FromKey) <= 1 && CountOf(rest, ToKey) <= 1 && CountOf(rest, ProtoKey) <= 1
    && CountOf(rest, TypeKey) <= 1 && CountOf(rest, PortKey) <= 2
  }

  /** Only "port" may occur twice, and "from" or "to" must occur. */
  lemma AcceptedClauses(id: string, a: Token, rest: Args)
    requires ActionWordToken(a) && NothingInFront(rest) && Lacks(rest, SetKey)
    requires |rest| > 1 && ParseArgs(id, [a] + rest).Ok?
    ensures FewClauses(rest) && Mentions(rest)
  {
    AcceptedFull(id, a, rest);
    AcceptedCounts(a, rest);
    AcceptedWord(a, rest);
  }

  lemma KeysBehind(a: Token, rest: Args)
    requires KeysAlternate([a] + rest, false)
    ensures KeysAlternate(rest, true)
  {
    assert ([a] + rest)[1..] == rest;
  }

  lemma AcceptedFull(id: string, a: Token, rest: Args)
    requires ActionWordToken(a) && NothingInFront(rest) && Lacks(rest, SetKey)
    requires |rest| > 1 && ParseArgs(id, [a] + rest).Ok?
    ensures var argv := [a] + rest;
      |argv| <= 13 && (|argv| + 1) % 2 == 0 && HasClauseWord(argv) && !TooMany(argv) && KeysAlternate(argv, false)
  {
    var argv := [a] + rest;
    PortFront(a, rest);
    NoRoute(a, rest);
    ParseShape(id, argv, Front(ActionOf(a).value, In, false, LogNone, "", argv));
    FormsFull(id, ActionOf(a).value, argv);
  }

  lemma FormsFull(id: string, action: Action, argv: Args)
    requires |argv| > 2 && ParseFront(id, Front(action, In, false, LogNone, "", argv)).Ok?
    ensures |argv| <= 13 && (|argv| + 1) % 2 == 0 && HasClauseWord(argv) && !TooMany(argv) && KeysAlternate(argv, false)
  {
    OddAreKeys(Draft(NewRule(id, action, In, LogNone, ""), NoSide, Both, Both, false), argv, false);
  }

  lemma AcceptedCounts(a: Token, rest: Args)
    requires ActionWordToken(a) && !TooMany([a] + rest)
    ensures FewClauses(rest)
  {
    CountTail(a, rest, FromKey);
    CountTail(a, rest, ToKey);
    CountTail(a, rest, ProtoKey);
    CountTail(a, rest, TypeKey);
    CountTail(a, rest, PortKey);
  }

  lemma AcceptedWord(a: Token, rest: Args)
    requires ActionWordToken(a) && HasClauseWord([a] + rest) && Lacks(rest, InKey) && Lacks(rest, OutKey)
    ensures Mentions(rest)
  {
    var argv := [a] + rest;
    var k := if IndexOf(argv, FromKey) >= 0 then FromKey else if IndexOf(argv, ToKey) >= 0 then ToKey
             else if IndexOf(argv, InKey) >= 0 then InKey else OutKey;
    var i := IndexOf(argv, k);
    assert Is(argv[i], k) && argv[i] == rest[i - 1];
  }

  // ---- one port ---------------------------------------------------------------------------------------

  /** The rule of "ACTION PORTS": in, to any address, everything else left open. */
  function ToPorts(id: string, action: Action, proto: Proto, range: PortRange): Rule {
    Rule(id, action, In, NoRouteDir, [], [], proto, None, AddrSpec(AnyIp, [], ""), AddrSpec(AnyIp, [range], ""),
         "", "", LogNone, "", 0, false, false)
  }

  lemma OnePortForm(id: string, a: Token, item: Item, proto: Option<string>)
    requires ActionWordToken(a)
    ensures ParseArgs(id, [a, Ports([item], proto)])
      == match ShortToken(NewRule(id, ActionOf(a).value, In, LogNone, ""), Ports([item], proto))
         case Err => Err
         case Ok(r) => Finish(Parsed(r, Both), false, NotDeferred)
  {
    var rest := [Ports([item], proto)];
    assert [a, Ports([item], proto)] == [a] + rest;
    PortFront(a, rest);
    NoRoute(a, rest);
    ParseShape(id, [a] + rest, TakeFront([a] + rest).value);
  }

  lemma SingleItem(item: Item)
    ensures Colons([item]) == if item.Between? then 1 else 0
    ensures ParseItems([item]) == if ItemOk(item) then Ok([RangeOf(item)]) else Err
  {
    assert [item][..0] == [] && [item][0] == item;
    assert Colons([item]) == Colons([]) + if item.Between? then 1 else 0;
    if ItemOk(item) {
      assert ParseItems([item]).value == [RangeOf(item)];
    }
  }

  lemma OneFinished(id: string, action: Action, proto: Proto, range: PortRange)
    requires range.proto == Blank && (proto == Tcp || proto == Udp || proto == AnyProto)
    ensures Finish(Parsed(ToPorts(id, action, proto, range), Both), false, NotDeferred)
      == if range.lo != range.hi && proto == AnyProto then Err
         else Ok(Op(ToPorts(id, action, proto, range.(proto := match proto
                                                               case Tcp => TcpPort
                                                               case Udp => UdpPort
                                                               case _ => AnyPort)), false, Both))
  {
    assert StampPorts([], proto) == [] && SortPorts([]) == [];
    SortOrdered([range.(proto := Stamp(proto))]);
    assert StampPorts([range], proto) == [range.(proto := Stamp(proto))];
  }

  lemma OneProto(id: string, a: Token, item: Item, text: Option<string>, proto: Proto)
    requires ActionWordToken(a)
    requires (text == Some("tcp") && proto == Tcp) || (text == Some("udp") && proto == Udp) || (text == None && proto == AnyProto)
    ensures ParseArgs(id, [a, Ports([item], text)])
      == if !ItemOk(item) then Err
         else Finish(Parsed(ToPorts(id, ActionOf(a).value, proto, RangeOf(item)), Both), false, NotDeferred)
  {
    SingleItem(item);
    OnePortForm(id, a, item, text);
  }

  /** "ACTION N/tcp", "ACTION N/udp" and "ACTION N": accepted for the numbers 1 to 65535. */
  lemma PortCommand(id: string, a: Token, n: nat, text: Option<string>, proto: Proto)
    requires ActionWordToken(a)
    requires (text == Some("tcp") && proto == Tcp) || (text == Some("udp") && proto == Udp) || (text == None && proto == AnyProto)
    ensures ParseArgs(id, [a, Ports([One(n)], text)])
      == if 1 <= n <= 65535
         then Ok(Op(ToPorts(id, ActionOf(a).value, proto,
                            PortRange(n, n, match proto case Tcp => TcpPort case Udp => UdpPort case _ => AnyPort)), false, Both))
         else Err
  {
    OneProto(id, a, One(n), text, proto);
    OneFinished(id, ActionOf(a).value, proto, PortRange(n, n, Blank));
  }

  /** "ACTION LO:HI/PROTO": the range must grow, and without a protocol it is refused. */
  lemma RangeCommand(id: string, a: Token, lo: nat, hi: nat, text: Option<string>, proto: Proto)
    requires ActionWordToken(a)
    requires (text == Some("tcp") && proto == Tcp) || (text == Some("udp") && proto == Udp) || (text == None && proto == AnyProto)
    ensures ParseArgs(id, [a, Ports([Between(lo, hi)], text)])
      == if 1 <= lo < hi <= 65535 && text != None
         then Ok(Op(ToPorts(id, ActionOf(a).value, proto,
                            PortRange(lo, hi, if proto == Tcp then TcpPort else UdpPort)), false, Both))
         else Err
  {
    OneProto(id, a, Between(lo, hi), text, proto);
    OneFinished(id, ActionOf(a).value, proto, PortRange(lo, hi, Blank));
  }

  // ---- interface names -------------------------------------------------------------------------------

  /** A digit, a letter, or one of % + , - . = @ and _, by its code. */
  predicate NameCode(n: int) {
    48 <= n <= 57 || 65 <= n <= 90 || 97 <= n <= 122 || n in [37, 43, 44, 45, 46, 61, 64, 95]
  }

  /** One to fifteen such characters, and neither the current nor the parent directory. */
  predicate GoodName(name: string) {
    1 <= |name| <= 15 && name != "." && name != ".." && forall i :: 0 <= i < |name| ==> NameCode(name[i] as int)
  }

  lemma NameRead(r: Rule, name: string)
    ensures SetIface(r, In, Plain(name)).Ok? <==> GoodName(name)
    ensures SetIface(r, Out, Plain(name)).Ok? <==> GoodName(name)
    ensures GoodName(name) ==>
      && ValidIface(name)
      && SetIface(r, In, Plain(name)) == Ok(r.(ifaceIn := NameOf(name)))
      && SetIface(r, Out, Plain(name)) == Ok(r.(ifaceOut := NameOf(name)))
  {
  }

  /** The arguments of "ACTION in|out on NAME N/tcp". */
  function IfacePort(a: Token, k: Keyword, name: string, n: nat): Args {
    [a, Key(k), Key(OnKey), Plain(name), Ports([One(n)], Some("tcp"))]
  }

  /** What is left of them when "on" is gone. */
  function IfaceRest(a: Token, k: Keyword, name: string, n: nat): Args {
    [a, Key(k), Plain(name), Ports([One(n)], Some("tcp"))]
  }

  lemma IfaceOpened(a: Token, k: Keyword, name: string, n: nat)
    requires ActionWordToken(a) && (k == InKey || k == OutKey)
    ensures TakeDirection(IfacePort(a, k, name, n)) == Directed(if k == OutKey then Out else In, IfacePort(a, k, name, n))
    ensures TakeIface(IfacePort(a, k, name, n)) == Ok(Stripped(true, IfaceRest(a, k, name, n)))
  {
    var tail := [Ports([One(n)], Some("tcp"))];
    assert IfacePort(a, k, name, n) == [a, Key(k), Key(OnKey), Plain(name)] + tail;
    assert IfaceRest(a, k, name, n) == [a, Key(k), Plain(name)] + tail;
    ClauseDirection(a, k, Plain(name), tail);
    OneClause(a, k, Plain(name), tail);
  }

  lemma IfaceQuiet(a: Token, k: Keyword, name: string, n: nat)
    requires ActionWordToken(a) && (k == InKey || k == OutKey)
    ensures TakeLog(true, IfaceRest(a, k, name, n)) == Ok(Logged(LogNone, IfaceRest(a, k, name, n)))
    ensures TakeComment(IfaceRest(a, k, name, n)) == Ok(Commented("", IfaceRest(a, k, name, n)))
    ensures FoldSets(IfaceRest(a, k, name, n)) == Ok(IfaceRest(a, k, name, n))
  {
    NoLogTaken(IfaceRest(a, k, name, n));
    assert Lacks(IfaceRest(a, k, name, n), CommentKey);
    UnfoldedArgs(IfaceRest(a, k, name, n));
  }

  /** What the parser takes off its front. */
  function IfaceTaken(a: Token, k: Keyword, name: string, n: nat): Front
    requires ActionWordToken(a)
  {
    Front(ActionOf(a).value, if k == OutKey then Out else In, true, LogNone, "", IfaceRest(a, k, name, n))
  }

  lemma IfaceFront(a: Token, k: Keyword, name: string, n: nat)
    requires ActionWordToken(a) && (k == InKey || k == OutKey)
    ensures TakeFront(IfacePort(a, k, name, n)) == Ok(IfaceTaken(a, k, name, n))
    ensures TakeRoute(IfacePort(a, k, name, n)) == Ok((false, Route(NotDeferred, IfacePort(a, k, name, n))))
  {
    NoRouteWord(IfacePort(a, k, name, n));
    IfaceOpened(a, k, name, n);
    IfaceQuiet(a, k, name, n);
  }

  /** The rule of such a command. */
  function IfaceRule(id: string, action: Action, k: Keyword, name: string, range: PortRange): Rule
    requires ValidIface(name)
  {
    Rule(id, action, if k == OutKey then Out else In, NoRouteDir,
         if k == InKey then NameOf(name) else [], if k == OutKey then NameOf(name) else [],
         Tcp, None, AddrSpec(AnyIp, [], ""), AddrSpec(AnyIp, [range], ""), "", "", LogNone, "", 0, false, false)
  }

  lemma IfaceForm(id: string, a: Token, k: Keyword, name: string, n: nat)
    requires ActionWordToken(a) && (k == InKey || k == OutKey) && 1 <= n <= 65535
    ensures ParseFront(id, IfaceTaken(a, k, name, n))
      == if GoodName(name) then Ok(Parsed(IfaceRule(id, ActionOf(a).value, k, name, PortRange(n, n, Blank)), Both)) else Err
  {
    NameRead(NewRule(id, ActionOf(a).value, if k == OutKey then Out else In, LogNone, ""), name);
    SingleItem(One(n));
  }

  lemma IfaceFinished(id: string, action: Action, k: Keyword, name: string, n: nat)
    requires ValidIface(name)
    ensures Finish(Parsed(IfaceRule(id, action, k, name, PortRange(n, n, Blank)), Both), false, NotDeferred)
      == Ok(Op(IfaceRule(id, action, k, name, PortRange(n, n, TcpPort)), false, Both))
  {
    assert StampPorts([], Tcp) == [] && SortPorts([]) == [];
    SortOrdered([PortRange(n, n, TcpPort)]);
    assert StampPorts([PortRange(n, n, Blank)], Tcp) == [PortRange(n, n, TcpPort)];
  }

  lemma FrontAccepted(id: string, args: Args, f: Front, p: Parsed)
    requires TakeRoute(args) == Ok((false, Route(NotDeferred, args))) && TakeFront(args) == Ok(f)
    requires ParseFront(id, f) == Ok(p)
    ensures ParseArgs(id, args) == Finish(p, false, NotDeferred)
  {
    ParseShape(id, args, f);
  }

  lemma FrontRefused(id: string, args: Args, f: Front)
    requires TakeRoute(args) == Ok((false, Route(NotDeferred, args))) && TakeFront(args) == Ok(f)
    requires ParseFront(id, f) == Err
    ensures ParseArgs(id, args) == Err
  {
    ParseShape(id, args, f);
  }

  lemma IfaceAccepted(id: string, a: Token, k: Keyword, name: string, n: nat)
    requires ActionWordToken(a) && (k == InKey || k == OutKey) && 1 <= n <= 65535 && GoodName(name)
    ensures ParseArgs(id, IfacePort(a, k, name, n))
      == Ok(Op(IfaceRule(id, ActionOf(a).value, k, name, PortRange(n, n, TcpPort)), false, Both))
  {
    IfaceFront(a, k, name, n);
    IfaceForm(id, a, k, name, n);
    IfaceFinished(id, ActionOf(a).value, k, name, n);
    FrontAccepted(id, IfacePort(a, k, name, n), IfaceTaken(a, k, name, n),
                  Parsed(IfaceRule(id, ActionOf(a).value, k, name, PortRange(n, n, Blank)), Both));
  }

  lemma IfaceRefused(id: string, a: Token, k: Keyword, name: string, n: nat)
    requires ActionWordToken(a) && (k == InKey || k == OutKey) && 1 <= n <= 65535 && !GoodName(name)
    ensures ParseArgs(id, IfacePort(a, k, name, n)) == Err
  {
    IfaceFront(a, k, name, n);
    IfaceForm(id, a, k, name, n);
    FrontRefused(id, IfacePort(a, k, name, n), IfaceTaken(a, k, name, n));
  }

  /** "ACTION in on NAME N/tcp" and "ACTION out on NAME N/tcp": the name must be good, and it names
      the interface of that direction. */
  lemma IfaceCommand(id: string, a: Token, k: Keyword, name: string, n: nat)
    requires ActionWordToken(a) && (k == InKey || k == OutKey) && 1 <= n <= 65535
    ensures ParseArgs(id, IfacePort(a, k, name, n))
      == if GoodName(name)
         then Ok(Op(IfaceRule(id, ActionOf(a).value, k, name, PortRange(n, n, TcpPort)), false, Both)) else Err
  {
    if GoodName(name) {
      IfaceAccepted(id, a, k, name, n);
    } else {
      IfaceRefused(id, a, k, name, n);
    }
  }

  // ---- a whole command ------------------------------------------------------------------------------------

  predicate OwnAddress(ip: Ip) {
    ip.Net? && ip.ones > 0
  }

  /** "allow log from A port P to B port Q proto tcp": each part stands for the field it names. */
  lemma FullCommand(id: string, r: Rule, p: nat, q: nat) returns (f: Family)
    requires ParserNormal(r) && r.action == Allow && r.dir == In && r.proto == Tcp && r.log == LogNew && r.comment == ""
    requires r.ifaceIn == [] && r.ifaceOut == [] && r.icmpType == None
    requires OwnAddress(r.src.ip) && OwnAddress(r.dst.ip)
    requires r.src.ports == [PortRange(p, p, TcpPort)] && r.dst.ports == [PortRange(q, q, TcpPort)]
    ensures ParseArgs(id, [Plain("allow"), Key(LogKey), Key(FromKey), Address(r.src.ip), Key(PortKey), Ports([One(p)], None),
                           Key(ToKey), Address(r.dst.ip), Key(PortKey), Ports([One(q)], None), Key(ProtoKey), Plain("tcp")])
      == Ok(Op(Rule(id, Allow, In, NoRouteDir, [], [], Tcp, None,
                    AddrSpec(r.src.ip, [PortRange(p, p, TcpPort)], ""), AddrSpec(r.dst.ip, [PortRange(q, q, TcpPort)], ""),
                    "", "", LogNew, "", 0, false, false), false, f))
  {
    f := PrintedParses(id, r);
    FullPrints(r, p, q);
  }

  lemma SidePrints(k: Keyword, a: AddrSpec, p: nat)
    requires OwnAddress(a.ip) && a.setName == "" && a.ports == [PortRange(p, p, TcpPort)]
    ensures SideTokens(k, a) == [Key(k), Address(a.ip), Key(PortKey), Ports([One(p)], None)]
  {
    assert PortToken(a.ports, None) == Ports([One(p)], None);
  }

  lemma SidesPrint(r: Rule, p: nat, q: nat)
    requires r.src.setName == "" && r.dst.setName == "" && OwnAddress(r.src.ip) && OwnAddress(r.dst.ip)
    requires r.src.ports == [PortRange(p, p, TcpPort)] && r.dst.ports == [PortRange(q, q, TcpPort)]
    requires r.proto == Tcp && r.icmpType == None
    ensures FullBody(r)
      == [Key(FromKey), Address(r.src.ip), Key(PortKey), Ports([One(p)], None),
          Key(ToKey), Address(r.dst.ip), Key(PortKey), Ports([One(q)], None), Key(ProtoKey), Plain("tcp")]
  {
    SidePrints(FromKey, r.src, p);
    SidePrints(ToKey, r.dst, q);
  }

  lemma Glued(x: Token, y: Token, body: Args)
    ensures [] + [x] + ([] + []) + [y] + body + [] == [x, y] + body
  {
    assert [] + [x] + ([] + []) + [y] == [x, y];
  }

  lemma FrontPrints(r: Rule)
    requires r.action == Allow && r.dir == In && r.log == LogNew && r.comment == "" && r.ifaceIn == [] && r.ifaceOut == []
    requires OwnAddress(r.src.ip) && r.src.setName == ""
    ensures CommandOf(r) == [Plain("allow"), Key(LogKey)] + FullBody(r)
  {
    Glued(Plain("allow"), Key(LogKey), FullBody(r));
  }

  /** The printer writes it so. */
  lemma FullPrints(r: Rule, p: nat, q: nat)
    requires r.action == Allow && r.dir == In && r.proto == Tcp && r.log == LogNew && r.comment == ""
    requires r.ifaceIn == [] && r.ifaceOut == [] && r.icmpType == None && r.src.setName == "" && r.dst.setName == ""
    requires OwnAddress(r.src.ip) && OwnAddress(r.dst.ip)
    requires r.src.ports == [PortRange(p, p, TcpPort)] && r.dst.ports == [PortRange(q, q, TcpPort)]
    ensures CommandOf(r)
      == [Plain("allow"), Key(LogKey), Key(FromKey), Address(r.src.ip), Key(PortKey), Ports([One(p)], None),
          Key(ToKey), Address(r.dst.ip), Key(PortKey), Ports([One(q)], None), Key(ProtoKey), Plain("tcp")]
  {
    SidesPrint(r, p, q);
    FrontPrints(r);
    Whole(Plain("allow"), Key(LogKey), FullBody(r));
  }

  lemma Whole(x: Token, y: Token, body: Args)
    requires |body| == 10
    ensures [x, y] + body
      == [x, y, body[0], body[1], body[2], body[3], body[4], body[5], body[6], body[7], body[8], body[9]]
  {
  }
}
