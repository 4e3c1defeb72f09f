/** Parsing a printed command gives the rule back, up to what the command cannot say. */
module Reparse {
  import opened Bytes
  import opened Cidr
  import opened Rules
  import opened PortOrder
  import opened AddressText
  import opened Command
  import opened Parser

  // ---- token lists -------------------------------------------------------------------

  predicate Lacks(ts: Args, k: Keyword) {
    forall i :: 0 <= i < |ts| ==> !Is(ts[i], k)
  }

  lemma IndexConcat(a: Args, b: Args, k: Keyword)
    requires Lacks(a, k)
    ensures IndexOf(a + b, k) == if IndexOf(b, k) < 0 then -1 else |a| + IndexOf(b, k)
  {
    var i, j := IndexOf(a + b, k), IndexOf(b, k);
    assert j >= 0 ==> (a + b)[|a| + j] == b[j];
    assert i >= |a| ==> (a + b)[i] == b[i - |a|];
    assert forall m :: 0 <= m < |b| ==> (a + b)[|a| + m] == b[m];
  }

  lemma {:induction false} CountConcat(a: Args, b: Args, k: Keyword)
    ensures CountOf(a + b, k) == CountOf(a, k) + CountOf(b, k)
  {
    if b == [] {
      assert a + b == a;
    } else {
      assert (a + b)[..|a + b| - 1] == a + b[..|b| - 1];
      CountConcat(a, b[..|b| - 1], k);
    }
  }

  lemma {:induction false} CountLacks(a: Args, k: Keyword)
    ensures Lacks(a, k) <==> CountOf(a, k) == 0
  {
    if a != [] {
      CountLacks(a[..|a| - 1], k);
      assert forall i :: 0 <= i < |a| - 1 ==> a[i] == a[..|a| - 1][i];
    }
  }

  lemma {:induction false} JoinedConcat(a: Args, b: Args)
    ensures JoinedWords(a + b) == JoinedWords(a) + JoinedWords(b)
  {
    if a == [] {
      assert a + b == b;
    } else {
      assert (a + b)[0] == a[0] && (a + b)[1..] == a[1..] + b;
      JoinedConcat(a[1..], b);
      Reassoc(Pieces(a[0]), JoinedWords(a[1..]), JoinedWords(b));
    }
  }

  // ---- names that are not words of the grammar ---------------------------------------------

  /** A name of one word that is no keyword. */
  predicate CleanName(s: string) {
    ' ' !in s && Lex(s) == Plain(s)
  }

  /** Neither the comment nor one of its words is a keyword. */
  predicate CleanComment(s: string) {
    !Lex(s).Word? && forall i :: 0 <= i < |Words(s)| ==> !Lex(Words(s)[i]).Word?
  }

  lemma {:induction false} OneWord(s: string)
    requires ' ' !in s
    ensures Words(s) == [s]
  {
    if s != "" {
      assert s == [s[0]] + s[1..];
      OneWord(s[1..]);
    }
  }

  lemma NamePieces(s: string)
    requires CleanName(s)
    ensures Pieces(Lex(s)) == [Plain(s)]
  {
    OneWord(s);
  }

  lemma {:induction false} KeywordSpells(s: string, keys: seq<Keyword>)
    requires KeywordOf(s, keys).Some?
    ensures Lower(s) == Spelling(KeywordOf(s, keys).value)
  {
    if Lower(s) != Spelling(keys[0]) {
      KeywordSpells(s, keys[1..]);
    }
  }

  lemma LexText(s: string)
    ensures TextOf(Lex(s)) == Some(s)
    ensures Lex(s).Word? ==> Lower(s) == Spelling(Lex(s).key)
  {
    if KeywordOf(s, KEYWORDS).Some? {
      KeywordSpells(s, KEYWORDS);
    } else if "set:" <= s {
      assert s == "set:" + s[4..];
    }
  }

  /** No word of the token is a direction. */
  predicate DirFree(t: Token) {
    forall i :: 0 <= i < |Pieces(t)| ==> !IsDir(Pieces(t)[i])
  }

  predicate AllDirFree(ts: Args) {
    forall i :: 0 <= i < |ts| ==> DirFree(ts[i])
  }

  lemma {:induction false} JoinedDirFree(ts: Args)
    requires AllDirFree(ts)
    ensures forall i :: 0 <= i < |JoinedWords(ts)| ==> !IsDir(JoinedWords(ts)[i])
  {
    if ts != [] {
      assert DirFree(ts[0]);
      JoinedDirFree(ts[1..]);
    }
  }

  /** A word without spaces that spells no direction. */
  lemma PlainDirFree(s: string)
    requires ' ' !in s && Lower(s) != "in" && Lower(s) != "out"
    ensures DirFree(Plain(s))
  {
    OneWord(s);
    LexText(s);
  }

  lemma ActionDirFree(a: Action)
    requires a != UnknownAction
    ensures DirFree(Plain(ActionWord(a))) && Pieces(Plain(ActionWord(a))) == [Lex(ActionWord(a))]
  {
    var s := ActionWord(a);
    assert |s| >= 4 && |Lower(s)| == |s|;
    PlainDirFree(s);
    OneWord(s);
  }

  lemma ProtoDirFree(p: Proto)
    ensures DirFree(Plain(ProtoWord(p)))
  {
    var s := ProtoWord(p);
    var l := Lower(s);
    assert |l| == |s|;
    assert |l| == 2 ==> l[0] == 'a';
    assert |l| == 3 ==> l[0] != 'o';
    PlainDirFree(s);
  }

  // ---- the rules the parser produces -----------------------------------------------------------

  predicate NormalPorts(ports: seq<PortRange>, p: Proto) {
    && Ordered(ports)
    && (forall i :: 0 <= i < |ports| ==> 1 <= ports[i].lo <= ports[i].hi <= 65535 && ports[i].proto == Stamp(p))
    && (ports != [] ==> |ports| - 1 + Colons(PortToken(ports, None).items) <= 14)
  }

  predicate NormalIp(ip: Ip) {
    match ip
    case AnyIp => true
    case Net(bytes, _) => ip.Valid() && (|bytes| == 4 || |bytes| == 16)
    case BadIp(_) => false
  }

  predicate NormalSide(a: AddrSpec, p: Proto) {
    NormalPorts(a.ports, p) && NormalIp(a.ip) && (a.setName != "" ==> a.ip == AnyIp)
  }

  predicate NormalIface(n: Rules.Name) {
    n != [] ==> ValidIface(NameText(n))
  }

  function SideFamily(a: AddrSpec): Family {
    if a.ip.Net? then (if |a.ip.bytes| == 4 then V4 else V6) else Both
  }

  /** The addresses are of one family, and of one the protocol exists in. */
  predicate FamiliesFit(r: Rule) {
    match FamilyOf(SideFamily(r.src), SideFamily(r.dst))
    case Err => false
    case Ok(f) => NarrowFamily(r.proto, f).Ok?
  }

  /** What every successfully parsed rule satisfies. */
  predicate ParserNormal(r: Rule) {
    && r.action != UnknownAction && r.proto != UnknownProto && r.dapp == "" && r.sapp == ""
    && NormalSide(r.src, r.proto) && NormalSide(r.dst, r.proto)
    && NormalIface(r.ifaceIn) && NormalIface(r.ifaceOut)
    && (r.icmpType.Some? ==> r.proto == Icmp || r.proto == Icmpv6)
    && PortsFit(r) && FamiliesFit(r) && '\'' !in r.comment
    && (r.Forward() <==> r.routeDir != NoRouteDir)
  }

  /** Its names and its comment are no words of the grammar. */
  predicate CleanNames(r: Rule) {
    && (r.ifaceIn != [] ==> CleanName(NameText(r.ifaceIn)))
    && (r.ifaceOut != [] ==> CleanName(NameText(r.ifaceOut)))
    && (r.src.setName != "" ==> CleanName(r.src.setName))
    && (r.dst.setName != "" ==> CleanName(r.dst.setName))
    && (r.comment != "" ==> CleanComment(r.comment))
  }

  // ---- the tokens of the body ---------------------------------------------------------------------

  predicate BodyKey(k: Keyword) {
    k == FromKey || k == ToKey || k == SetKey || k == PortKey || k == ProtoKey || k == TypeKey || k == AnyKey
  }

  predicate BodyToken(t: Token) {
    (t.Word? ==> BodyKey(t.key)) && DirFree(t)
  }

  predicate AllBody(ts: Args) {
    forall i :: 0 <= i < |ts| ==> BodyToken(ts[i])
  }

  lemma CleanBody(s: string)
    requires CleanName(s)
    ensures BodyToken(Lex(s))
  {
    NamePieces(s);
  }

  lemma BodyConcat(a: Args, b: Args)
    requires AllBody(a) && AllBody(b)
    ensures AllBody(a + b)
  {
  }

  lemma LocIsBody(a: AddrSpec)
    requires a.setName != "" ==> CleanName(a.setName)
    ensures AllBody(LocTokens(a))
  {
    if a.setName != "" {
      CleanBody(a.setName);
    }
  }

  lemma SideIsBody(k: Keyword, a: AddrSpec)
    requires k == FromKey || k == ToKey
    requires a.setName != "" ==> CleanName(a.setName)
    ensures AllBody(SideTokens(k, a))
  {
    LocIsBody(a);
    BodyConcat([Key(k)], LocTokens(a));
    BodyConcat([Key(k)] + LocTokens(a), if a.ports == [] then [] else [Key(PortKey), PortToken(a.ports, None)]);
  }

  lemma SidesAreBody(r: Rule)
    requires CleanNames(r)
    ensures AllBody(SidesBody(r))
  {
    SideIsBody(FromKey, r.src);
    SideIsBody(ToKey, r.dst);
    BodyConcat(SideTokens(FromKey, r.src), SideTokens(ToKey, r.dst));
  }

  lemma TailIsBody(r: Rule)
    ensures AllBody(ProtoTokens(r)) && AllBody(TypeTokens(r))
  {
    ProtoDirFree(r.proto);
  }

  lemma FullIsBody(r: Rule)
    requires CleanNames(r)
    ensures AllBody(FullBody(r))
  {
    SidesAreBody(r);
    TailIsBody(r);
    BodyConcat(SidesBody(r), ProtoTokens(r));
    BodyConcat(SidesBody(r) + ProtoTokens(r), TypeTokens(r));
  }

  lemma BodyIsBody(r: Rule)
    requires CleanNames(r)
    ensures AllBody(BodyTokens(r))
  {
    FullIsBody(r);
  }

  lemma CommentDirFree(r: Rule)
    requires CleanNames(r)
    ensures AllDirFree(CommentTokens(r))
  {
    if r.comment != "" {
      var t := Lex(r.comment);
      forall i | 0 <= i < |Pieces(t)| ensures !IsDir(Pieces(t)[i]) {
        if t.Plain? {
          assert Pieces(t)[i] == Lex(Words(r.comment)[i]);
        }
      }
    }
  }

  // ---- the front of the command --------------------------------------------------------------------

  lemma BareDirection(a: Token, dirs: Args, tail: Args)
    requires tail != [] && !IsDir(tail[0]) && !Is(tail[0], OnKey) && (dirs == [] || dirs == [Key(OutKey)])
    ensures TakeDirection([a] + dirs + tail) == Directed(if dirs == [] then In else Out, [a] + tail)
  {
    var argv := [a] + dirs + tail;
    if dirs == [] {
      assert argv == [a] + tail;
    } else {
      assert argv[2..] == tail;
    }
  }

  lemma ClauseDirection(a: Token, k: Keyword, name: Token, tail: Args)
    requires k == InKey || k == OutKey
    ensures TakeDirection([a, Key(k), Key(OnKey), name] + tail)
         == Directed(if k == InKey then In else Out, [a, Key(k), Key(OnKey), name] + tail)
  {
  }

  lemma NoClause(argv: Args)
    requires Lacks(argv, InKey) && Lacks(argv, OutKey)
    ensures TakeIface(argv) == Ok(Stripped(false, argv))
  {
    CountLacks(argv, InKey);
    CountLacks(argv, OutKey);
  }

  lemma OneClause(a: Token, k: Keyword, name: Token, tail: Args)
    requires k == InKey || k == OutKey
    ensures TakeIface([a, Key(k), Key(OnKey), name] + tail) == Ok(Stripped(true, [a, Key(k), name] + tail))
  {
    var argv := [a, Key(k), Key(OnKey), name] + tail;
    assert Is(argv[1], k);
    CountLacks(argv, k);
    assert argv[..2] + argv[3..] == [a, Key(k), name] + tail;
  }

  lemma LogTaken(hasIface: bool, front: Args, log: LogType, tail: Args)
    requires |front| == if hasIface then 3 else 1
    requires hasIface ==> !IsLog(front[1])
    requires !hasIface ==> tail != []
    requires tail != [] ==> !IsLog(tail[0])
    requires Lacks(front + tail, LogKey) && Lacks(front + tail, LogAllKey)
    ensures TakeLog(hasIface, front + LogTokens(log) + tail) == Ok(Logged(log, front + tail))
  {
    var argv := front + LogTokens(log) + tail;
    if log == LogNone {
      assert argv == front + tail;
    } else {
      assert argv[..|front|] + argv[|front| + 1..] == front + tail;
    }
  }

  lemma CommentTaken(r: Rule, front: Args)
    requires CleanNames(r) && '\'' !in r.comment && Lacks(front, CommentKey)
    ensures TakeComment(front + CommentTokens(r)) == Ok(Commented(r.comment, front))
  {
    var argv := front + CommentTokens(r);
    IndexConcat(front, CommentTokens(r), CommentKey);
    if r.comment == "" {
      assert argv == front;
    } else {
      LexText(r.comment);
      assert argv[..|front|] + argv[|front| + 2..] == front;
    }
  }

  // ---- folding set names ------------------------------------------------------------------------

  function FoldedLoc(a: AddrSpec): Token {
    if a.setName != "" then SetRef(a.setName) else if PrintsAny(a) then Key(AnyKey) else Address(a.ip)
  }

  function PortClauses(a: AddrSpec): Args {
    if a.ports == [] then [] else [Key(PortKey), PortToken(a.ports, None)]
  }

  predicate Printed(a: AddrSpec) {
    !PrintsAny(a) || a.ports != []
  }

  function FoldedSide(k: Keyword, a: AddrSpec): Args {
    if !Printed(a) then [] else [Key(k), FoldedLoc(a)] + PortClauses(a)
  }

  function FoldedSides(r: Rule): Args {
    var sides := FoldedSide(FromKey, r.src) + FoldedSide(ToKey, r.dst);
    if sides == [] && r.ifaceIn == [] && r.ifaceOut == [] then [Key(ToKey), Key(AnyKey)] else sides
  }

  function FoldedBody(r: Rule): Args {
    if ShortForm(r) then ShortBody(r) else FoldedSides(r) + ProtoTokens(r) + TypeTokens(r)
  }

  lemma {:induction false} FoldFree(ts: Args, rest: Args)
    requires Lacks(ts, FromKey) && Lacks(ts, ToKey)
    ensures FoldSets(ts + rest) == Prefixed(ts, FoldSets(rest))
  {
    if ts == [] {
      assert ts + rest == rest;
      assert FoldSets(rest).Ok? ==> [] + FoldSets(rest).value == FoldSets(rest).value;
    } else {
      assert ts + rest == [ts[0]] + (ts[1..] + rest);
      FoldHead(ts[0], ts[1..] + rest);
      FoldFree(ts[1..], rest);
      if FoldSets(rest).Ok? {
        assert [ts[0]] + (ts[1..] + FoldSets(rest).value) == ts + FoldSets(rest).value;
      }
    }
  }

  lemma PrefixedTwice(a: Args, b: Args, r: Result<Args>)
    ensures Prefixed(a, Prefixed(b, r)) == Prefixed(a + b, r)
  {
    if r.Ok? {
      Reassoc(a, b, r.value);
    }
  }

  /** "from set NAME" folds to one pair. */
  lemma FoldSetClause(k: Keyword, name: string, rest: Args)
    requires k == FromKey || k == ToKey
    ensures FoldSets([Key(k), Key(SetKey), Lex(name)] + rest) == Prefixed([Key(k), SetRef(name)], FoldSets(rest))
  {
    var argv := [Key(k), Key(SetKey), Lex(name)] + rest;
    LexText(name);
    assert argv[3..] == rest && argv[2] == Lex(name);
  }

  /** An address that is no set name stays as it is. */
  lemma FoldPlainClause(k: Keyword, t: Token, rest: Args)
    requires (k == FromKey || k == ToKey) && !Is(t, SetKey) && !Is(t, FromKey) && !Is(t, ToKey)
    ensures FoldSets([Key(k), t] + rest) == Prefixed([Key(k), t], FoldSets(rest))
  {
    var argv := [Key(k), t] + rest;
    FoldStep([], argv);
    assert argv[1..] == [t] + rest;
    FoldHead(t, rest);
    assert [] + [Key(k)] == [Key(k)];
    PrefixedTwice([Key(k)], [t], FoldSets(rest));
    assert [Key(k)] + [t] == [Key(k), t];
    assert Prefixed([], FoldSets(argv)) == FoldSets(argv) by {
      assert FoldSets(argv).Ok? ==> [] + FoldSets(argv).value == FoldSets(argv).value;
    }
  }

  lemma FoldLoc(k: Keyword, a: AddrSpec, rest: Args)
    requires k == FromKey || k == ToKey
    ensures FoldSets([Key(k)] + LocTokens(a) + rest) == Prefixed([Key(k), FoldedLoc(a)], FoldSets(rest))
  {
    if a.setName != "" {
      FoldSetClause(k, a.setName, rest);
      assert [Key(k)] + LocTokens(a) == [Key(k), Key(SetKey), Lex(a.setName)];
    } else {
      FoldPlainClause(k, FoldedLoc(a), rest);
      assert [Key(k)] + LocTokens(a) == [Key(k), FoldedLoc(a)];
    }
  }

  lemma FoldSide(k: Keyword, a: AddrSpec, rest: Args)
    requires k == FromKey || k == ToKey
    ensures FoldSets(SideTokens(k, a) + rest) == Prefixed(FoldedSide(k, a), FoldSets(rest))
  {
    if !Printed(a) {
      FoldFree([], rest);
    } else {
      var head := [Key(k)] + LocTokens(a);
      FoldLoc(k, a, PortClauses(a) + rest);
      FoldFree(PortClauses(a), rest);
      Reassoc(head, PortClauses(a), rest);
      PrefixedTwice([Key(k), FoldedLoc(a)], PortClauses(a), FoldSets(rest));
    }
  }

  lemma FoldSidesBody(r: Rule, rest: Args)
    ensures FoldSets(SidesBody(r) + rest) == Prefixed(FoldedSides(r), FoldSets(rest))
  {
    var from, to := SideTokens(FromKey, r.src), SideTokens(ToKey, r.dst);
    if from + to == [] && r.ifaceIn == [] && r.ifaceOut == [] {
      FoldPlainClause(ToKey, Key(AnyKey), rest);
    } else {
      Reassoc(from, to, rest);
      FoldSide(FromKey, r.src, to + rest);
      FoldSide(ToKey, r.dst, rest);
      PrefixedTwice(FoldedSide(FromKey, r.src), FoldedSide(ToKey, r.dst), FoldSets(rest));
    }
  }

  lemma FoldBody(r: Rule)
    ensures FoldSets(BodyTokens(r)) == Ok(FoldedBody(r))
  {
    var tail := ProtoTokens(r) + TypeTokens(r);
    if ShortForm(r) {
      assert |ShortBody(r)| == 1;
    } else {
      Reassoc(SidesBody(r), ProtoTokens(r), TypeTokens(r));
      FoldSidesBody(r, tail);
      FoldFree(tail, []);
      assert tail + [] == tail;
      Reassoc(FoldedSides(r), ProtoTokens(r), TypeTokens(r));
    }
  }
}
