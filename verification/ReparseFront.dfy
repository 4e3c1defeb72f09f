/** What the parser takes off the front of a printed command. */
module ReparseFront {
  import opened Bytes
  import opened Cidr
  import opened Rules
  import opened PortOrder
  import opened AddressText
  import opened Command
  import opened Parser
  import opened Reparse

  // ---- the front ----------------------------------------------------------------------

  function ActionToken(r: Rule): Token {
    Plain(ActionWord(r.action))
  }

  predicate HasIface(r: Rule) {
    r.ifaceIn != [] || r.ifaceOut != []
  }

  /** The direction tokens the base grammar sees. */
  function Opening(r: Rule): Args {
    if r.ifaceIn != [] then [Key(InKey), Key(OnKey), Lex(NameText(r.ifaceIn))]
    else if r.ifaceOut != [] then [Key(OutKey), Key(OnKey), Lex(NameText(r.ifaceOut))]
    else if r.dir == Out then [Key(OutKey)] else []
  }

  /** What is left of them in front of the clauses. */
  function IfacePair(r: Rule): Args {
    if r.ifaceIn != [] then [Key(InKey), Lex(NameText(r.ifaceIn))]
    else if r.ifaceOut != [] then [Key(OutKey), Lex(NameText(r.ifaceOut))]
    else []
  }

  function ParsedDir(r: Rule): Direction {
    if r.ifaceIn != [] then In else if r.ifaceOut != [] || r.dir == Out then Out else In
  }

  function Ending(r: Rule): Args {
    BodyTokens(r) + CommentTokens(r)
  }

  lemma ActionRead(a: Action)
    requires a != UnknownAction
    ensures ActionOf(Plain(ActionWord(a))) == Some(a)
  {
  }

  lemma BodyPresent(r: Rule)
    requires !HasIface(r)
    ensures BodyTokens(r) != []
  {
  }

  predicate EndingToken(t: Token) {
    t.Word? ==> BodyKey(t.key) || t.key == CommentKey
  }

  lemma EndingTokens(b: Args, c: Args)
    requires AllBody(b) && forall i :: 0 <= i < |c| ==> EndingToken(c[i])
    ensures forall i :: 0 <= i < |b + c| ==> EndingToken((b + c)[i])
  {
    forall i | 0 <= i < |b| ensures EndingToken((b + c)[i]) {
      assert BodyToken(b[i]);
    }
  }

  lemma CommentEnds(r: Rule)
    requires CleanNames(r)
    ensures forall i :: 0 <= i < |CommentTokens(r)| ==> EndingToken(CommentTokens(r)[i])
  {
    if r.comment != "" {
      assert !Lex(r.comment).Word?;
    }
  }

  lemma LacksOther(ts: Args, k: Keyword)
    requires forall i :: 0 <= i < |ts| ==> EndingToken(ts[i])
    requires k == InKey || k == OutKey || k == LogKey || k == LogAllKey || k == OnKey
    ensures Lacks(ts, k)
    ensures ts != [] ==> !IsLog(ts[0]) && !IsDir(ts[0])
  {
    forall i | 0 <= i < |ts| ensures !Is(ts[i], k) {
      assert EndingToken(ts[i]);
    }
    assert ts != [] ==> EndingToken(ts[0]);
  }

  /** No direction or log word is left in what follows the log flag. */
  lemma EndingLacks(r: Rule, k: Keyword)
    requires CleanNames(r) && (k == InKey || k == OutKey || k == LogKey || k == LogAllKey || k == OnKey)
    ensures Lacks(Ending(r), k)
    ensures Ending(r) != [] ==> !IsLog(Ending(r)[0]) && !IsDir(Ending(r)[0])
  {
    BodyIsBody(r);
    CommentEnds(r);
    EndingTokens(BodyTokens(r), CommentTokens(r));
    LacksOther(Ending(r), k);
  }

  lemma PairLacks(r: Rule, k: Keyword)
    requires CleanNames(r) && k != InKey && k != OutKey
    ensures Lacks([ActionToken(r)] + IfacePair(r), k)
  {
  }

  lemma DirectionTaken(r: Rule, tail: Args)
    requires CleanNames(r) && tail != [] && !IsDir(tail[0]) && !Is(tail[0], OnKey)
    requires Lacks(tail, InKey) && Lacks(tail, OutKey) && !HasIface(r)
    ensures var d := TakeDirection([ActionToken(r)] + Opening(r) + tail);
      d == Directed(ParsedDir(r), [ActionToken(r)] + tail) && TakeIface(d.argv) == Ok(Stripped(false, d.argv))
  {
    BareDirection(ActionToken(r), Opening(r), tail);
    NoClause([ActionToken(r)] + tail);
  }

  lemma IfaceTaken(r: Rule, tail: Args)
    requires HasIface(r)
    ensures var d := TakeDirection([ActionToken(r)] + Opening(r) + tail);
      d.dir == ParsedDir(r)
      && TakeIface(d.argv) == Ok(Stripped(true, [ActionToken(r)] + IfacePair(r) + tail))
  {
    var k := if r.ifaceIn != [] then InKey else OutKey;
    var name := Lex(NameText(if r.ifaceIn != [] then r.ifaceIn else r.ifaceOut));
    ClauseDirection(ActionToken(r), k, name, tail);
    OneClause(ActionToken(r), k, name, tail);
    assert [ActionToken(r)] + Opening(r) == [ActionToken(r), Key(k), Key(OnKey), name];
    assert [ActionToken(r)] + IfacePair(r) == [ActionToken(r), Key(k), name];
  }

  /** Direction and interface clause are read off the front of the command. */
  lemma OpeningTaken(r: Rule)
    requires CleanNames(r)
    ensures var tail := LogTokens(r.log) + Ending(r);
      var d := TakeDirection([ActionToken(r)] + Opening(r) + tail);
      d.dir == ParsedDir(r)
      && TakeIface(d.argv) == Ok(Stripped(HasIface(r), [ActionToken(r)] + IfacePair(r) + tail))
  {
    var tail := LogTokens(r.log) + Ending(r);
    if HasIface(r) {
      IfaceTaken(r, tail);
    } else {
      EndingLacks(r, InKey);
      EndingLacks(r, OutKey);
      EndingLacks(r, OnKey);
      BodyPresent(r);
      DirectionTaken(r, tail);
      assert [ActionToken(r)] + IfacePair(r) == [ActionToken(r)];
    }
  }

  lemma LogRead(r: Rule)
    requires CleanNames(r)
    ensures var front := [ActionToken(r)] + IfacePair(r);
      TakeLog(HasIface(r), front + LogTokens(r.log) + Ending(r)) == Ok(Logged(r.log, front + Ending(r)))
  {
    var front := [ActionToken(r)] + IfacePair(r);
    EndingLacks(r, LogKey);
    EndingLacks(r, LogAllKey);
    PairLacks(r, LogKey);
    PairLacks(r, LogAllKey);
    if !HasIface(r) {
      BodyPresent(r);
    }
    LogTaken(HasIface(r), front, r.log, Ending(r));
  }

  lemma CommentRead(r: Rule)
    requires CleanNames(r) && '\'' !in r.comment
    ensures var front := [ActionToken(r)] + IfacePair(r);
      TakeComment(front + Ending(r)) == Ok(Commented(r.comment, front + BodyTokens(r)))
  {
    var front := [ActionToken(r)] + IfacePair(r);
    BodyIsBody(r);
    PairLacks(r, CommentKey);
    Reassoc(front, BodyTokens(r), CommentTokens(r));
    CommentTaken(r, front + BodyTokens(r));
  }

  lemma SetsFolded(r: Rule)
    requires CleanNames(r)
    ensures var front := [ActionToken(r)] + IfacePair(r);
      FoldSets(front + BodyTokens(r)) == Ok(front + FoldedBody(r))
  {
    PairLacks(r, FromKey);
    PairLacks(r, ToKey);
    FoldFree([ActionToken(r)] + IfacePair(r), BodyTokens(r));
    FoldBody(r);
  }

  /** The clauses that are taken off the command before its body is read. */
  function ReadFront(r: Rule): Front {
    Front(r.action, ParsedDir(r), HasIface(r), r.log, r.comment, [ActionToken(r)] + IfacePair(r) + FoldedBody(r))
  }

  function Rest(r: Rule): Args {
    LogTokens(r.log) + Ending(r)
  }

  lemma FrontTaken(r: Rule)
    requires ParserNormal(r) && CleanNames(r)
    ensures TakeFront([ActionToken(r)] + Opening(r) + Rest(r)) == Ok(ReadFront(r))
  {
    var argv := [ActionToken(r)] + Opening(r) + Rest(r);
    var front := [ActionToken(r)] + IfacePair(r);
    ActionRead(r.action);
    OpeningTaken(r);
    Reassoc(front, LogTokens(r.log), Ending(r));
    LogRead(r);
    CommentRead(r);
    SetsFolded(r);
    if !HasIface(r) {
      BodyPresent(r);
    }
    assert |argv| >= 2 && argv[0] == ActionToken(r);
  }

  // ---- the route prefix --------------------------------------------------------------------------

  /** A non-routed rule whose direction tokens the grammar does not take back. */
  predicate Misdirected(r: Rule) {
    !r.Forward() && r.ifaceIn != [] && (r.ifaceOut != [] || r.dir == Out)
  }

  function RouteLater(r: Rule): Deferral {
    if r.Forward() && r.ifaceIn != [] && r.ifaceOut != [] then Deferred(Out, Lex(NameText(r.ifaceOut))) else NotDeferred
  }

  lemma CommandShape(r: Rule)
    ensures CommandOf(r) == RouteTokens(r) + ([ActionToken(r)] + IfaceTokens(r) + Rest(r))
  {
    var head := RouteTokens(r) + [ActionToken(r)] + IfaceTokens(r);
    Reassoc(head + LogTokens(r.log), BodyTokens(r), CommentTokens(r));
    Reassoc(head, LogTokens(r.log), Ending(r));
    Reassoc(RouteTokens(r), [ActionToken(r)], IfaceTokens(r));
    Reassoc(RouteTokens(r), [ActionToken(r)] + IfaceTokens(r), Rest(r));
  }

  lemma EndingDirFree(b: Args, c: Args)
    requires AllBody(b) && AllDirFree(c)
    ensures AllDirFree(b + c)
  {
    forall i | 0 <= i < |b| ensures DirFree((b + c)[i]) {
      assert BodyToken(b[i]);
    }
  }

  lemma LogDirFree(log: LogType, rest: Args)
    requires AllDirFree(rest)
    ensures AllDirFree(LogTokens(log) + rest)
  {
    forall i | 0 <= i < |LogTokens(log) + rest| ensures DirFree((LogTokens(log) + rest)[i]) {
      if i >= |LogTokens(log)| {
        assert DirFree(rest[i - |LogTokens(log)|]);
      }
    }
  }

  lemma RestDirFree(r: Rule)
    requires CleanNames(r)
    ensures AllDirFree(Rest(r))
  {
    BodyIsBody(r);
    CommentDirFree(r);
    EndingDirFree(BodyTokens(r), CommentTokens(r));
    LogDirFree(r.log, Ending(r));
  }

  lemma NamesJoined(r: Rule)
    requires CleanNames(r) && r.Forward()
    ensures JoinedWords(IfaceTokens(r)) == IfaceTokens(r)
  {
    var ins := if r.ifaceIn != [] then [Key(InKey), Key(OnKey), Lex(NameText(r.ifaceIn))] else [];
    var outs := if r.ifaceOut != [] then [Key(OutKey), Key(OnKey), Lex(NameText(r.ifaceOut))] else [];
    assert IfaceTokens(r) == ins + outs;
    JoinedConcat(ins, outs);
    if r.ifaceIn != [] {
      TripleJoined(InKey, NameText(r.ifaceIn));
    }
    if r.ifaceOut != [] {
      TripleJoined(OutKey, NameText(r.ifaceOut));
    }
  }

  lemma TripleJoined(k: Keyword, name: string)
    requires CleanName(name)
    ensures JoinedWords([Key(k), Key(OnKey), Lex(name)]) == [Key(k), Key(OnKey), Lex(name)]
  {
    var t := [Key(k), Key(OnKey), Lex(name)];
    NamePieces(name);
    assert t[1..] == [Key(OnKey), Lex(name)] && t[1..][1..] == [Lex(name)] && [Lex(name)][1..] == [];
    assert JoinedWords([Lex(name)]) == [Plain(name)] + [];
  }

  /** The words of a route command: the action, the interface clauses, no other direction. */
  lemma RouteWords(r: Rule) returns (x: Token, tail: Args)
    requires r.action != UnknownAction && CleanNames(r) && r.Forward()
    ensures JoinedWords([ActionToken(r)] + IfaceTokens(r) + Rest(r)) == [x] + IfaceTokens(r) + tail
    ensures !IsDir(x) && forall i :: 0 <= i < |tail| ==> !IsDir(tail[i])
    ensures !HasIface(r) ==> tail != []
  {
    x := Lex(ActionWord(r.action));
    tail := JoinedWords(Rest(r));
    ActionDirFree(r.action);
    RestDirFree(r);
    JoinedDirFree(Rest(r));
    NamesJoined(r);
    JoinedConcat([ActionToken(r)] + IfaceTokens(r), Rest(r));
    JoinedConcat([ActionToken(r)], IfaceTokens(r));
    assert JoinedWords([ActionToken(r)]) == [x] + [];
    assert DirFree(ActionToken(r)) && Pieces(ActionToken(r))[0] == x;
    if !HasIface(r) {
      BodyPresent(r);
      assert Rest(r) != [];
    }
  }

  lemma NoDirWords(x: Token, tail: Args)
    requires !IsDir(x) && forall i :: 0 <= i < |tail| ==> !IsDir(tail[i])
    ensures var ws := [x] + [] + tail;
      !HasPair(ws, InKey, OnKey) && !HasPair(ws, OutKey, OnKey) && !HasInner(ws, InKey) && !HasInner(ws, OutKey)
  {
    var ws := [x] + [] + tail;
    forall i | 0 <= i < |ws| ensures !IsDir(ws[i]) {
    }
  }

  lemma OneClauseWords(x: Token, k: Keyword, name: string, tail: Args)
    requires k == InKey || k == OutKey
    requires !IsDir(x) && CleanName(name) && forall i :: 0 <= i < |tail| ==> !IsDir(tail[i])
    ensures var ws := [x] + [Key(k), Key(OnKey), Lex(name)] + tail;
      HasPair(ws, InKey, OnKey) == (k == InKey) && HasPair(ws, OutKey, OnKey) == (k == OutKey)
  {
    var ws := [x] + [Key(k), Key(OnKey), Lex(name)] + tail;
    assert Is(ws[1], k) && Is(ws[2], OnKey);
    forall i | 0 <= i < |ws| && i != 1 ensures !IsDir(ws[i]) {
    }
  }

  function BothClauses(first: string, second: string): Args {
    [Key(InKey), Key(OnKey), Lex(first), Key(OutKey), Key(OnKey), Lex(second)]
  }

  lemma TwoClauseWords(x: Token, first: string, second: string, tail: Args)
    ensures var ws := [x] + BothClauses(first, second) + tail;
      HasPair(ws, InKey, OnKey) && HasPair(ws, OutKey, OnKey)
  {
    var ws := [x] + BothClauses(first, second) + tail;
    assert Is(ws[1], InKey) && Is(ws[2], OnKey);
    assert Is(ws[4], OutKey) && Is(ws[5], OnKey);
  }

  lemma BothTokens(r: Rule)
    requires r.ifaceIn != [] && r.ifaceOut != []
    ensures IfaceTokens(r) == BothClauses(NameText(r.ifaceIn), NameText(r.ifaceOut))
  {
  }

  lemma IndexAt(argv: Args, k: Keyword, n: nat)
    requires n < |argv| && Is(argv[n], k) && Lacks(argv[..n], k)
    ensures IndexOf(argv, k) == n
  {
    assert forall j :: 0 <= j < n ==> !Is(argv[..n][j], k);
  }

  lemma ClausePositions(a: Token, first: string, second: string, tail: Args)
    requires CleanName(first) && !a.Word?
    ensures var argv := [a] + BothClauses(first, second) + tail;
      && IndexOf(argv, InKey) == 1 && IndexOf(argv, OutKey) == 4 && argv[6] == Lex(second)
      && argv[..4] + argv[7..] == [a] + [Key(InKey), Key(OnKey), Lex(first)] + tail
  {
    var argv := [a] + BothClauses(first, second) + tail;
    assert argv[..1] == [a];
    IndexAt(argv, InKey, 1);
    assert argv[..4] == [a, Key(InKey), Key(OnKey), Lex(first)];
    IndexAt(argv, OutKey, 4);
    assert argv[7..] == tail;
  }

  /** With both clauses on the line, the second is cut out. */
  lemma SecondDeferred(a: Token, first: string, second: string, tail: Args)
    requires CleanName(first) && !a.Word?
    requires var ws := JoinedWords([a] + BothClauses(first, second) + tail);
      HasPair(ws, InKey, OnKey) && HasPair(ws, OutKey, OnKey)
    ensures DeferSecond([a] + BothClauses(first, second) + tail)
      == Ok(Route(Deferred(Out, Lex(second)), [a] + [Key(InKey), Key(OnKey), Lex(first)] + tail))
  {
    ClausePositions(a, first, second, tail);
  }

  lemma Undeferred(argv: Args)
    requires var ws := JoinedWords(argv);
      if HasPair(ws, InKey, OnKey) then !HasPair(ws, OutKey, OnKey)
      else HasPair(ws, OutKey, OnKey) || (!HasInner(ws, InKey) && !HasInner(ws, OutKey))
    ensures DeferSecond(argv) == Ok(Route(NotDeferred, argv))
  {
  }

  lemma BothDeferred(r: Rule)
    requires r.action != UnknownAction && CleanNames(r) && r.Forward() && r.ifaceIn != [] && r.ifaceOut != []
    ensures DeferSecond([ActionToken(r)] + IfaceTokens(r) + Rest(r))
         == Ok(Route(RouteLater(r), [ActionToken(r)] + Opening(r) + Rest(r)))
  {
    var x, tail := RouteWords(r);
    var first, second := NameText(r.ifaceIn), NameText(r.ifaceOut);
    BothTokens(r);
    TwoClauseWords(x, first, second, tail);
    SecondDeferred(ActionToken(r), first, second, Rest(r));
  }

  lemma OneUndeferred(r: Rule, k: Keyword, n: Rules.Name)
    requires r.action != UnknownAction && CleanNames(r) && r.Forward() && CleanName(NameText(n))
    requires (k == InKey && n == r.ifaceIn && r.ifaceOut == []) || (k == OutKey && n == r.ifaceOut && r.ifaceIn == [])
    requires n != []
    ensures DeferSecond([ActionToken(r)] + IfaceTokens(r) + Rest(r))
         == Ok(Route(NotDeferred, [ActionToken(r)] + IfaceTokens(r) + Rest(r)))
  {
    var x, tail := RouteWords(r);
    assert IfaceTokens(r) == [Key(k), Key(OnKey), Lex(NameText(n))];
    OneClauseWords(x, k, NameText(n), tail);
    Undeferred([ActionToken(r)] + IfaceTokens(r) + Rest(r));
  }

  lemma NoneUndeferred(r: Rule)
    requires r.action != UnknownAction && CleanNames(r) && r.Forward() && !HasIface(r)
    ensures DeferSecond([ActionToken(r)] + IfaceTokens(r) + Rest(r))
         == Ok(Route(NotDeferred, [ActionToken(r)] + IfaceTokens(r) + Rest(r)))
  {
    var x, tail := RouteWords(r);
    assert IfaceTokens(r) == [];
    NoDirWords(x, tail);
    Undeferred([ActionToken(r)] + IfaceTokens(r) + Rest(r));
  }

  lemma RouteDeferred(r: Rule)
    requires r.action != UnknownAction && CleanNames(r) && r.Forward()
    ensures DeferSecond([ActionToken(r)] + IfaceTokens(r) + Rest(r))
         == Ok(Route(RouteLater(r), [ActionToken(r)] + Opening(r) + Rest(r)))
  {
    if r.ifaceIn != [] && r.ifaceOut != [] {
      BothDeferred(r);
    } else {
      assert IfaceTokens(r) == Opening(r);
      if r.ifaceIn != [] {
        OneUndeferred(r, InKey, r.ifaceIn);
      } else if r.ifaceOut != [] {
        OneUndeferred(r, OutKey, r.ifaceOut);
      } else {
        NoneUndeferred(r);
      }
    }
  }

  lemma NoRouteWord(argv: Args)
    requires argv != [] && !argv[0].Word?
    ensures TakeRoute(argv) == Ok((false, Route(NotDeferred, argv)))
  {
  }

  lemma RouteWord(argv: Args, route: Route)
    requires argv != [] && !argv[0].Word? && DeferSecond(argv) == Ok(route)
    ensures TakeRoute([Key(RouteKey)] + argv) == Ok((true, route))
  {
    assert ([Key(RouteKey)] + argv)[1..] == argv;
  }

  lemma RouteTaken(r: Rule)
    requires r.action != UnknownAction && CleanNames(r) && !Misdirected(r)
    ensures TakeRoute(CommandOf(r)) == Ok((r.Forward(), Route(RouteLater(r), [ActionToken(r)] + Opening(r) + Rest(r))))
  {
    var argv := [ActionToken(r)] + IfaceTokens(r) + Rest(r);
    CommandShape(r);
    if r.Forward() {
      RouteDeferred(r);
      RouteWord(argv, Route(RouteLater(r), [ActionToken(r)] + Opening(r) + Rest(r)));
    } else {
      assert IfaceTokens(r) == Opening(r);
      NoRouteWord(argv);
      assert [] + argv == argv;
    }
  }
}
