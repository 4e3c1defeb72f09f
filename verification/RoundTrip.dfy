/** The printed command of a parsed rule parses to the same rule, exactly when the command
    says all there is to say. */
module RoundTrip {
  import opened Bytes
  import opened Cidr
  import opened Rules
  import opened PortOrder
  import opened AddressText
  import opened Command
  import opened Parser
  import opened Reparse
  import opened ReparseFront
  import opened ReparseBody

  // ---- the three forms ---------------------------------------------------------------------

  lemma FamiliesRead(r: Rule) returns (f: Family)
    requires FamiliesFit(r) && NormalSide(r.src, r.proto) && NormalSide(r.dst, r.proto)
    ensures FamilyOf(ReadFamily(r.src), ReadFamily(r.dst)) == Ok(f) && NarrowFamily(r.proto, f).Ok?
  {
    f := FamilyOf(ReadFamily(r.src), ReadFamily(r.dst)).value;
  }

  lemma FullRead(id: string, r: Rule, f: Family)
    requires ParserNormal(r) && CleanNames(r) && FamilyOf(ReadFamily(r.src), ReadFamily(r.dst)) == Ok(f)
    ensures FullForm(BareRule(id, r), FullArgs(r)) == Ok(Parsed(ReadRule(id, r), f))
  {
    FullNotTooMany(r);
    BodyRead(id, r);
    SidesDraftRest(id, r);
  }

  lemma OddForms(r0: Rule, hasIface: bool, argv: Args, p: Parsed)
    requires |argv| % 2 == 1 && |argv| >= 3 && HasClauseWord(argv) && FullForm(r0, argv) == Ok(p)
    ensures Forms(r0, hasIface, argv) == Ok(p)
  {
  }

  lemma FullForms(id: string, r: Rule, f: Family)
    requires ParserNormal(r) && CleanNames(r) && FamilyOf(ReadFamily(r.src), ReadFamily(r.dst)) == Ok(f)
    ensures Forms(BareRule(id, r), HasIface(r), FullArgs(r)) == Ok(Parsed(ReadRule(id, r), f))
  {
    FullLength(r);
    FullHasWord(r);
    FullRead(id, r, f);
    OddForms(BareRule(id, r), HasIface(r), FullArgs(r), Parsed(ReadRule(id, r), f));
  }

  lemma ShortRead(id: string, r: Rule)
    requires ParserNormal(r) && ShortForm(r)
    ensures ShortToken(BareRule(id, r), ShortBody(r)[0]) == Ok(ReadRule(id, r))
  {
    var proto := if r.proto == AnyProto then None else Some(ProtoWord(r.proto));
    PortsRead(r.dst.ports, r.proto, proto);
    ProtoRead(r.proto);
    UnprintedIsWild(r.src);
  }

  /** The clauses of the body give every field that the front did not. */
  lemma FormsRead(id: string, r: Rule) returns (f: Family)
    requires ParserNormal(r) && CleanNames(r)
    ensures ParseFront(id, ReadFront(r)) == Ok(Parsed(ReadRule(id, r), f)) && NarrowFamily(r.proto, f).Ok?
  {
    f := FamiliesRead(r);
    if ShortForm(r) {
      ShortRead(id, r);
      assert ReadFront(r).argv == [ActionToken(r), ShortBody(r)[0]];
    } else {
      FullLength(r);
      FullForms(id, r, f);
      assert ReadFront(r).argv == FullArgs(r);
    }
  }

  // ---- the finished rule -----------------------------------------------------------------------

  function WildIfPrinted(a: AddrSpec): AddrSpec {
    if PrintsAny(a) then a.(ip := AnyIp) else a
  }

  /** The rule that the printed command denotes. */
  function Reparsed(id: string, r: Rule): Rule {
    BareRule(id, r).(
      dir := if r.Forward() then Routed else ParsedDir(r),
      routeDir := if !r.Forward() then NoRouteDir else if ParsedDir(r) == Out then RouteOut else RouteIn,
      ifaceIn := r.ifaceIn, ifaceOut := r.ifaceOut, proto := r.proto, icmpType := r.icmpType,
      src := WildIfPrinted(r.src), dst := WildIfPrinted(r.dst))
  }

  lemma BlanksFit(r: Rule, id: string)
    requires PortsFit(r)
    ensures PortsFit(ReadRule(id, r))
  {
  }

  lemma SideStamped(a: AddrSpec, p: Proto)
    requires NormalSide(a, p)
    ensures ReadSide(a).(ports := StampPorts(Blanks(a.ports), p)) == WildIfPrinted(a)
    ensures SortPorts(a.ports) == a.ports
  {
    PortsStamped(a.ports, p);
  }

  lemma RouteFinished(id: string, r: Rule)
    requires NormalSide(r.src, r.proto) && NormalSide(r.dst, r.proto) && NormalIface(r.ifaceOut) && !Misdirected(r)
    ensures RouteRule(StampRule(ReadRule(id, r)), r.Forward(), RouteLater(r)) == Ok(Reparsed(id, r))
  {
    SideStamped(r.src, r.proto);
    SideStamped(r.dst, r.proto);
    if r.ifaceOut != [] {
      NameRead(r.ifaceOut);
    }
  }

  lemma Finished(id: string, r: Rule, f: Family) returns (g: Family)
    requires ParserNormal(r) && !Misdirected(r) && NarrowFamily(r.proto, f).Ok?
    ensures Finish(Parsed(ReadRule(id, r), f), r.Forward(), RouteLater(r)) == Ok(Op(Reparsed(id, r), r.Forward(), g))
  {
    g := NarrowFamily(r.proto, f).value;
    BlanksFit(r, id);
    RouteFinished(id, r);
    SideStamped(r.src, r.proto);
    SideStamped(r.dst, r.proto);
  }

  /** Parsing the printed command succeeds within the argument limit and gives this rule. */
  lemma PrintedParses(id: string, r: Rule) returns (f: Family)
    requires ParserNormal(r) && CleanNames(r) && !Misdirected(r)
    ensures ParseArgs(id, CommandOf(r)) == Ok(Op(Reparsed(id, r), r.Forward(), f))
  {
    RouteTaken(r);
    FrontTaken(r);
    var g := FormsRead(id, r);
    f := Finished(id, r, g);
  }

  // ---- commands that are refused ------------------------------------------------------------------

  /** The direction tokens behind the first interface clause. */
  function Stray(r: Rule): Args {
    if r.ifaceOut != [] then [Key(OutKey), Key(OnKey), Lex(NameText(r.ifaceOut))] else [Key(OutKey)]
  }

  function InPair(r: Rule): Args {
    [ActionToken(r), Key(InKey), Lex(NameText(r.ifaceIn))]
  }

  lemma StrayHead(r: Rule)
    ensures var front := InPair(r) + Stray(r);
      (|front| == 4 || |front| == 6) && front[1] == Key(InKey) && front[3] == Key(OutKey)
  {
    assert |InPair(r)| == 3 && (|Stray(r)| == 1 || |Stray(r)| == 3);
  }

  lemma StrayTokens(r: Rule)
    requires Misdirected(r)
    ensures [ActionToken(r)] + IfaceTokens(r)
         == [ActionToken(r), Key(InKey), Key(OnKey), Lex(NameText(r.ifaceIn))] + Stray(r)
  {
  }

  lemma StrayShape(r: Rule)
    requires Misdirected(r)
    ensures CommandOf(r) == [ActionToken(r), Key(InKey), Key(OnKey), Lex(NameText(r.ifaceIn))] + (Stray(r) + Rest(r))
  {
    CommandShape(r);
    StrayTokens(r);
    assert [] + ([ActionToken(r)] + IfaceTokens(r) + Rest(r)) == [ActionToken(r)] + IfaceTokens(r) + Rest(r);
    Reassoc([ActionToken(r), Key(InKey), Key(OnKey), Lex(NameText(r.ifaceIn))], Stray(r), Rest(r));
  }

  lemma StrayFront(r: Rule)
    requires Misdirected(r) && r.action != UnknownAction && CleanNames(r)
    ensures TakeRoute(CommandOf(r)) == Ok((false, Route(NotDeferred, CommandOf(r))))
    ensures var d := TakeDirection(CommandOf(r));
      TakeIface(d.argv) == Ok(Stripped(true, InPair(r) + (Stray(r) + Rest(r))))
  {
    StrayShape(r);
    NoRouteWord(CommandOf(r));
    ClauseDirection(ActionToken(r), InKey, Lex(NameText(r.ifaceIn)), Stray(r) + Rest(r));
    OneClause(ActionToken(r), InKey, Lex(NameText(r.ifaceIn)), Stray(r) + Rest(r));
  }

  lemma StrayLacks(r: Rule, k: Keyword)
    requires Misdirected(r) && CleanNames(r) && k != InKey && k != OutKey && k != OnKey
    ensures Lacks(InPair(r) + Stray(r), k)
  {
  }

  lemma NoLogTaken(argv: Args)
    requires |argv| > 3 && !IsLog(argv[1]) && !IsLog(argv[3]) && Lacks(argv, LogKey) && Lacks(argv, LogAllKey)
    ensures TakeLog(true, argv) == Ok(Logged(LogNone, argv))
  {
  }

  lemma LateLogRefused(argv: Args, i: nat)
    requires |argv| > 3 && !IsLog(argv[1]) && !IsLog(argv[3])
    requires i < |argv| && (Is(argv[i], LogKey) || Is(argv[i], LogAllKey))
    ensures TakeLog(true, argv) == Err
  {
  }

  lemma LacksConcat(a: Args, b: Args, k: Keyword)
    requires Lacks(a, k) && Lacks(b, k)
    ensures Lacks(a + b, k)
  {
  }

  lemma LogPosition(a: Args, log: LogType, rest: Args)
    requires log != LogNone
    ensures var argv := a + (LogTokens(log) + rest);
      |a| < |argv| && (Is(argv[|a|], LogKey) || Is(argv[|a|], LogAllKey))
  {
  }

  lemma StrayLineLacks(r: Rule, k: Keyword)
    requires Misdirected(r) && CleanNames(r) && (k == LogKey || k == LogAllKey)
    ensures Lacks(InPair(r) + (Stray(r) + Ending(r)), k)
  {
    EndingLacks(r, k);
    StrayLacks(r, k);
    Reassoc(InPair(r), Stray(r), Ending(r));
    LacksConcat(InPair(r) + Stray(r), Ending(r), k);
  }

  lemma StrayUnlogged(r: Rule)
    requires Misdirected(r) && CleanNames(r)
    ensures TakeLog(true, InPair(r) + (Stray(r) + Ending(r))) == Ok(Logged(LogNone, InPair(r) + (Stray(r) + Ending(r))))
  {
    StrayLineLacks(r, LogKey);
    StrayLineLacks(r, LogAllKey);
    Reassoc(InPair(r), Stray(r), Ending(r));
    StrayHead(r);
    NoLogTaken(InPair(r) + Stray(r) + Ending(r));
  }

  lemma StrayLog(r: Rule)
    requires Misdirected(r) && CleanNames(r)
    ensures var l := TakeLog(true, InPair(r) + (Stray(r) + Rest(r)));
      if r.log == LogNone then l == Ok(Logged(LogNone, InPair(r) + (Stray(r) + Ending(r)))) else l == Err
  {
    var front := InPair(r) + Stray(r);
    if r.log == LogNone {
      assert Rest(r) == Ending(r);
      StrayUnlogged(r);
    } else {
      StrayHead(r);
      LogPosition(front, r.log, Ending(r));
      Reassoc(InPair(r), Stray(r), Rest(r));
      LateLogRefused(front + Rest(r), |front|);
    }
  }

  lemma StrayRest(r: Rule)
    requires Misdirected(r) && CleanNames(r) && '\'' !in r.comment
    ensures TakeComment(InPair(r) + (Stray(r) + Ending(r))) == Ok(Commented(r.comment, InPair(r) + Stray(r) + BodyTokens(r)))
    ensures FoldSets(InPair(r) + Stray(r) + BodyTokens(r)) == Ok(InPair(r) + Stray(r) + FoldedBody(r))
  {
    var front := InPair(r) + Stray(r);
    BodyIsBody(r);
    StrayLacks(r, CommentKey);
    StrayLacks(r, FromKey);
    StrayLacks(r, ToKey);
    Reassoc(InPair(r), Stray(r), Ending(r));
    Reassoc(front, BodyTokens(r), CommentTokens(r));
    CommentTaken(r, front + BodyTokens(r));
    FoldFree(front, BodyTokens(r));
    FoldBody(r);
  }

  lemma EvenBody(r: Rule)
    requires !ShortForm(r) && (r.icmpType.Some? ==> r.proto == Icmp || r.proto == Icmpv6)
    ensures |FoldedBody(r)| % 2 == 0
  {
    SidesLength(r);
    TailLength(r);
    assert |FoldedBody(r)| == |FoldedSides(r)| + |ProtoTokens(r) + TypeTokens(r)|;
  }

  lemma HeadAndBody(front: Args, body: Args)
    requires |front| % 2 == 0 && |front| >= 4 && |body| % 2 == 0
    ensures |front + body| % 2 == 0 && |front + body| >= 4 && (front + body)[3] == front[3]
  {
  }

  lemma EvenForms(r0: Rule, argv: Args)
    requires |argv| % 2 == 0 && |argv| >= 4 && argv[3] == Key(OutKey)
    ensures Forms(r0, true, argv) == Err
  {
  }

  /** An odd number of stray tokens spoils the parity of the clauses. */
  lemma StrayForms(id: string, r: Rule, d: Direction)
    requires Misdirected(r) && ParserNormal(r)
    ensures ParseFront(id, Front(r.action, d, true, r.log, r.comment, InPair(r) + Stray(r) + FoldedBody(r))) == Err
  {
    var front := InPair(r) + Stray(r);
    EvenBody(r);
    StrayHead(r);
    HeadAndBody(front, FoldedBody(r));
    EvenForms(NewRule(id, r.action, d, r.log, r.comment), front + FoldedBody(r));
  }

  /** A non-routed rule with both interfaces, or an outgoing one with an incoming interface,
      prints as a command that the parser refuses. */
  lemma MisdirectedRefused(id: string, r: Rule)
    requires ParserNormal(r) && CleanNames(r) && Misdirected(r)
    ensures ParseArgs(id, CommandOf(r)) == Err
  {
    StrayFront(r);
    StrayShape(r);
    StrayTaken(r);
    if r.log == LogNone {
      StrayForms(id, r, TakeDirection(CommandOf(r)).dir);
    }
  }

  /** The front of such a command is refused for its log word, or taken off. */
  lemma StrayTaken(r: Rule)
    requires ParserNormal(r) && CleanNames(r) && Misdirected(r)
    ensures TakeFront(CommandOf(r))
      == if r.log != LogNone then Err
         else Ok(Front(r.action, TakeDirection(CommandOf(r)).dir, true, LogNone, r.comment, InPair(r) + Stray(r) + FoldedBody(r)))
  {
    StrayFront(r);
    StrayLog(r);
    StrayShape(r);
    ActionRead(r.action);
    if r.log == LogNone {
      StrayRest(r);
    }
  }

  // ---- main result ---------------------------------------------------------------------------------

  /** Parsing the printed command gives the same action, log flag, comment and tuple, the
      family aside. */
  predicate Restored(id: string, r: Rule) {
    match ParseArgs(id, CommandOf(r))
    case Err => false
    case Ok(op) =>
      op.rule.action == r.action && op.rule.log == r.log && op.rule.comment == r.comment
      && SameTuple(op.rule.(v6 := r.v6), r)
  }

  /** No explicit zero-length prefix, and the direction follows from the interfaces. */
  predicate SaysAll(r: Rule) {
    && (r.src.ip.Net? ==> r.src.ip.ones != 0) && (r.dst.ip.Net? ==> r.dst.ip.ones != 0)
    && if r.Forward() then r.routeDir == RouteOut <==> (r.ifaceIn == [] && r.ifaceOut != [])
       else if r.ifaceIn != [] then r.ifaceOut == [] && r.dir == In
       else r.ifaceOut != [] ==> r.dir == Out
  }

  lemma TupleKept(id: string, r: Rule)
    requires ParserNormal(r) && !Misdirected(r)
    ensures SameTuple(Reparsed(id, r).(v6 := r.v6), r) <==> SaysAll(r)
  {
  }

  /** The parser undoes the printer on a rule it produced iff the command says all of it. */
  lemma ParserUndoesPrinter(id: string, r: Rule)
    requires ParserNormal(r) && CleanNames(r)
    ensures Restored(id, r) <==> SaysAll(r)
  {
    if Misdirected(r) {
      MisdirectedRefused(id, r);
    } else {
      var f := PrintedParses(id, r);
      TupleKept(id, r);
    }
  }
}
