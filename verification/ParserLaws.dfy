/** Laws of the command parser about spellings that the printer never writes: direction words,
    actions, log words, the route prefix and the long form of a port. */
module ParserLaws {
  import opened Bytes
  import opened Rules
  import opened PortOrder
  import opened AddressText
  import opened Command
  import opened Parser
  import opened Reparse
  import opened ReparseFront
  import opened ReparseBody

  // ---- fields that the clauses never look at -----------------------------------------------------

  /** What stands in front of the match. */
  datatype Marks = Marks(action: Action, dir: Direction, log: LogType, comment: string)

  function Marked(r: Rule, m: Marks): Rule {
    r.(action := m.action, dir := m.dir, log := m.log, comment := m.comment)
  }

  function MarkedRule(x: Result<Rule>, m: Marks): Result<Rule> {
    match x
    case Err => Err
    case Ok(r) => Ok(Marked(r, m))
  }

  function MarkedDraft(x: Result<Draft>, m: Marks): Result<Draft> {
    match x
    case Err => Err
    case Ok(d) => Ok(d.(rule := Marked(d.rule, m)))
  }

  function MarkedParse(x: Result<Parsed>, m: Marks): Result<Parsed> {
    match x
    case Err => Err
    case Ok(p) => Ok(p.(rule := Marked(p.rule, m)))
  }

  function MarkedOp(x: Result<Op>, m: Marks): Result<Op> {
    match x
    case Err => Err
    case Ok(op) => Ok(op.(rule := Marked(op.rule, m)))
  }

  lemma IfaceMarks(r: Rule, dir: Direction, t: Token, m: Marks)
    ensures SetIface(Marked(r, m), dir, t) == MarkedRule(SetIface(r, dir, t), m)
  {
  }

  lemma ShortMarks(r: Rule, t: Token, m: Marks)
    ensures ShortToken(Marked(r, m), t) == MarkedRule(ShortToken(r, t), m)
  {
  }

  lemma ClauseMarks(d: Draft, key: Token, rest: Args, m: Marks)
    ensures Clause(d.(rule := Marked(d.rule, m)), key, rest) == MarkedDraft(Clause(d, key, rest), m)
  {
  }

  lemma {:induction false} ClausesMarks(d: Draft, ts: Args, odd: bool, m: Marks)
    ensures Clauses(d.(rule := Marked(d.rule, m)), ts, odd) == MarkedDraft(Clauses(d, ts, odd), m)
    decreases |ts|
  {
    if ts != [] {
      ClauseMarks(d, ts[0], ts[1..], m);
      if Clause(d, ts[0], ts[1..]).Ok? {
        ClausesMarks(Clause(d, ts[0], ts[1..]).value, ts[1..], !odd, m);
      }
    }
  }

  lemma FullMarks(r: Rule, argv: Args, m: Marks)
    ensures FullForm(Marked(r, m), argv) == MarkedParse(FullForm(r, argv), m)
  {
    ClausesMarks(Draft(r, NoSide, Both, Both, false), argv, false, m);
  }

  lemma FormsMarks(r: Rule, hasIface: bool, argv: Args, m: Marks)
    ensures Forms(Marked(r, m), hasIface, argv) == MarkedParse(Forms(r, hasIface, argv), m)
  {
    FullMarks(r, argv, m);
    if |argv| == 2 {
      ShortMarks(r, argv[1], m);
    } else if hasIface && |argv| == 4 {
      IfaceMarks(r, DirOf(argv[1]), argv[2], m);
      if SetIface(r, DirOf(argv[1]), argv[2]).Ok? {
        ShortMarks(SetIface(r, DirOf(argv[1]), argv[2]).value, argv[3], m);
      }
    }
  }

  lemma FinishMarks(p: Parsed, m: Marks)
    ensures Finish(p.(rule := Marked(p.rule, m)), false, NotDeferred) == MarkedOp(Finish(p, false, NotDeferred), m)
  {
  }

  function MarksOf(f: Front): Marks {
    Marks(f.action, f.dir, f.log, f.comment)
  }

  lemma ParseShape(id: string, args: Args, f: Front)
    requires TakeRoute(args) == Ok((false, Route(NotDeferred, args))) && TakeFront(args) == Ok(f)
    ensures ParseArgs(id, args)
      == match ParseFront(id, f) case Err => Err case Ok(p) => Finish(p, false, NotDeferred)
  {
  }

  lemma ParseFrontMarks(id: string, f: Front, g: Front)
    requires f.hasIface == g.hasIface && f.argv == g.argv
    ensures ParseFront(id, g) == MarkedParse(ParseFront(id, f), MarksOf(g))
  {
    var r0 := NewRule(id, f.action, f.dir, f.log, f.comment);
    assert Marked(r0, MarksOf(g)) == NewRule(id, g.action, g.dir, g.log, g.comment);
    FormsMarks(r0, f.hasIface, f.argv, MarksOf(g));
  }

  /** Two commands that agree behind their front differ in the front's fields alone. */
  lemma FrontMarks(id: string, args: Args, f: Front, others: Args, g: Front)
    requires TakeRoute(args) == Ok((false, Route(NotDeferred, args))) && TakeFront(args) == Ok(f)
    requires TakeRoute(others) == Ok((false, Route(NotDeferred, others))) && TakeFront(others) == Ok(g)
    requires f.hasIface == g.hasIface && f.argv == g.argv
    ensures ParseArgs(id, others) == MarkedOp(ParseArgs(id, args), MarksOf(g))
  {
    ParseShape(id, args, f);
    ParseShape(id, others, g);
    ParseFrontMarks(id, f, g);
    if ParseFront(id, f).Ok? {
      FinishMarks(ParseFront(id, f).value, MarksOf(g));
    }
  }

  // ---- direction words -------------------------------------------------------------------------------

  /** Behind an action: a token that neither is a direction word nor opens an interface clause. */
  predicate PlainNext(rest: Args) {
    rest != [] && !IsDir(rest[0]) && !Is(rest[0], OnKey)
  }

  predicate ActionWordToken(a: Token) {
    a.Plain? && (a.text == "allow" || a.text == "deny" || a.text == "reject" || a.text == "limit")
  }

  lemma WordFront(a: Token, w: Token, rest: Args)
    requires ActionWordToken(a) && IsDir(w) && PlainNext(rest)
    ensures TakeDirection([a, w] + rest) == Directed(if IsLower(w, OutKey) then Out else In, [a] + rest)
    ensures TakeDirection([a] + rest) == Directed(In, [a] + rest)
  {
    var argv := [a, w] + rest;
    assert argv[2] == rest[0] && [argv[0]] + argv[2..] == [a] + rest;
    assert ([a] + rest)[1] == rest[0];
  }

  /** The rest of the front does not depend on the direction. */
  lemma FrontBehind(x: Args, y: Args)
    requires |x| >= 2 && |y| >= 2 && x[0] == y[0] && TakeDirection(x).argv == TakeDirection(y).argv
    ensures TakeFront(x).Ok? <==> TakeFront(y).Ok?
    ensures TakeFront(x).Ok? ==> TakeFront(x).value == TakeFront(y).value.(dir := TakeDirection(x).dir)
  {
  }

  lemma NoRoute(a: Token, rest: Args)
    requires ActionWordToken(a)
    ensures TakeRoute([a] + rest) == Ok((false, Route(NotDeferred, [a] + rest)))
  {
    assert ([a] + rest)[0] == a;
  }

  /** A bare direction word sets the direction and nothing else. */
  lemma DirectionWord(id: string, a: Token, w: Token, rest: Args)
    requires ActionWordToken(a) && (w == Key(InKey) || w == Key(OutKey)) && PlainNext(rest)
    ensures var without, with_ := ParseArgs(id, [a] + rest), ParseArgs(id, [a, w] + rest);
      && (w == Key(InKey) ==> with_ == without)
      && (w == Key(OutKey) ==>
            if without.Ok? then with_ == Ok(without.value.(rule := without.value.rule.(dir := Out))) else with_ == Err)
  {
    var x, y := [a] + rest, [a, w] + rest;
    assert y == [a] + ([w] + rest);
    NoRoute(a, rest);
    NoRoute(a, [w] + rest);
    WordFront(a, w, rest);
    FrontBehind(y, x);
    if TakeFront(x).Ok? {
      var f, g := TakeFront(x).value, TakeFront(y).value;
      FrontMarks(id, x, f, y, g);
      PassedMarks(id, x, f);
    }
  }

  /** What the front says is what the rule says. */
  lemma PassedMarks(id: string, args: Args, f: Front)
    requires TakeRoute(args) == Ok((false, Route(NotDeferred, args))) && TakeFront(args) == Ok(f)
    ensures ParseArgs(id, args).Ok? ==>
      var r := ParseArgs(id, args).value.rule; r.action == f.action && r.dir == f.dir && r.log == f.log && r.comment == f.comment
  {
    FrontMarks(id, args, f, args, f);
  }

  /** The direction of an accepted command: out if its second word says so, and otherwise in. */
  lemma DirectionFollows(id: string, a: Token, rest: Args)
    requires ActionWordToken(a) && rest != [] && ParseArgs(id, [a] + rest).Ok?
    ensures ParseArgs(id, [a] + rest).value.rule.dir == if rest[0].Word? && rest[0].key == OutKey then Out else In
  {
    var args := [a] + rest;
    NoRoute(a, rest);
    PassedMarks(id, args, TakeFront(args).value);
    assert args[1] == rest[0];
  }

  // ---- actions ------------------------------------------------------------------------------------------

  /** The action of an accepted command is its first word. */
  lemma ActionFollows(id: string, word: string, rest: Args)
    requires ParseArgs(id, [Plain(word)] + rest).Ok?
    ensures var action := ParseArgs(id, [Plain(word)] + rest).value.rule.action;
      && (word == "allow" || word == "deny" || word == "reject" || word == "limit")
      && (word == "allow" ==> action == Allow) && (word == "deny" ==> action == Deny)
      && (word == "reject" ==> action == Reject) && (word == "limit" ==> action == Limit)
  {
    var args := [Plain(word)] + rest;
    assert args[0] == Plain(word);
    assert TakeRoute(args) == Ok((false, Route(NotDeferred, args)));
    PassedMarks(id, args, TakeFront(args).value);
    ActionTexts(word);
  }

  lemma ActionTexts(word: string)
    ensures word == "allow" ==> ActionOf(Plain(word)) == Some(Allow)
    ensures word == "deny" ==> ActionOf(Plain(word)) == Some(Deny)
    ensures word == "reject" ==> ActionOf(Plain(word)) == Some(Reject)
    ensures word == "limit" ==> ActionOf(Plain(word)) == Some(Limit)
  {
    assert "allow"[0] == 'a' && "deny"[0] == 'd' && "reject"[0] == 'r' && "limit"[0] == 'l';
  }

  // ---- log words -------------------------------------------------------------------------------------------

  /** No direction, log or comment word, so that nothing but the action is in front. */
  predicate NothingInFront(rest: Args) {
    && PlainNext(rest) && !IsLog(rest[0])
    && Lacks(rest, InKey) && Lacks(rest, OutKey) && Lacks(rest, LogKey) && Lacks(rest, LogAllKey) && Lacks(rest, CommentKey)
  }

  lemma BareFront(a: Token, rest: Args)
    requires ActionWordToken(a) && NothingInFront(rest) && FoldSets([a] + rest).Ok?
    ensures TakeFront([a] + rest) == Ok(Front(ActionOf(a).value, In, false, LogNone, "", FoldSets([a] + rest).value))
  {
    var x := [a] + rest;
    assert x[1] == rest[0];
    assert forall k :: Lacks(rest, k) ==> Lacks(x, k);
    NoClause(x);
  }

  lemma LoggedIface(a: Token, w: Token, rest: Args)
    requires ActionWordToken(a) && IsLog(w) && NothingInFront(rest)
    ensures TakeDirection([a, w] + rest) == Directed(In, [a, w] + rest)
    ensures TakeIface([a, w] + rest) == Ok(Stripped(false, [a, w] + rest))
  {
    var y := [a, w] + rest;
    assert y[1] == w;
    assert Lacks(y, InKey) && Lacks(y, OutKey);
    NoClause(y);
  }

  lemma LoggedTaken(a: Token, w: Token, rest: Args)
    requires ActionWordToken(a) && IsLog(w) && NothingInFront(rest)
    ensures TakeLog(false, [a, w] + rest) == Ok(Logged(if IsLower(w, LogKey) then LogNew else LogAll, [a] + rest))
  {
    var y := [a, w] + rest;
    assert y[1] == w && y[..1] + y[2..] == [a] + rest;
    assert Lacks([a] + rest, LogKey) && Lacks([a] + rest, LogAllKey);
  }

  lemma LoggedFront(a: Token, w: Token, rest: Args)
    requires ActionWordToken(a) && IsLog(w) && NothingInFront(rest) && FoldSets([a] + rest).Ok?
    ensures TakeFront([a, w] + rest)
      == Ok(Front(ActionOf(a).value, In, false, if IsLower(w, LogKey) then LogNew else LogAll, "", FoldSets([a] + rest).value))
  {
    LoggedIface(a, w, rest);
    LoggedTaken(a, w, rest);
    assert Lacks([a] + rest, CommentKey);
    assert ([a, w] + rest)[0] == a;
  }

  /** A log word behind the action sets the log flag and nothing else. */
  lemma LogWord(id: string, a: Token, rest: Args)
    requires ActionWordToken(a) && NothingInFront(rest) && ParseArgs(id, [a] + rest).Ok?
    ensures var op := ParseArgs(id, [a] + rest).value;
      && op.rule.log == LogNone
      && ParseArgs(id, [a, Key(LogKey)] + rest) == Ok(op.(rule := op.rule.(log := LogNew)))
      && ParseArgs(id, [a, Key(LogAllKey)] + rest) == Ok(op.(rule := op.rule.(log := LogAll)))
  {
    var x := [a] + rest;
    NoRoute(a, rest);
    FrontFolds(a, rest);
    BareFront(a, rest);
    PassedMarks(id, x, TakeFront(x).value);
    LogWordIs(id, a, Key(LogKey), rest);
    LogWordIs(id, a, Key(LogAllKey), rest);
  }

  lemma FrontFolds(a: Token, rest: Args)
    requires ActionWordToken(a) && NothingInFront(rest) && TakeFront([a] + rest).Ok?
    ensures FoldSets([a] + rest).Ok?
  {
    var x := [a] + rest;
    assert x[1] == rest[0];
    assert forall k :: Lacks(rest, k) ==> Lacks(x, k);
    NoClause(x);
  }

  function LogOf(w: Token): LogType {
    if IsLower(w, LogKey) then LogNew else LogAll
  }

  lemma LogWordIs(id: string, a: Token, w: Token, rest: Args)
    requires ActionWordToken(a) && IsLog(w) && NothingInFront(rest) && FoldSets([a] + rest).Ok?
    ensures ParseArgs(id, [a, w] + rest) == MarkedOp(ParseArgs(id, [a] + rest), Marks(ActionOf(a).value, In, LogOf(w), ""))
  {
    var argv := FoldSets([a] + rest).value;
    BareFront(a, rest);
    LoggedFront(a, w, rest);
    LoggedRoutes(a, w, rest);
    FrontMarks(id, [a] + rest, Front(ActionOf(a).value, In, false, LogNone, "", argv),
               [a, w] + rest, Front(ActionOf(a).value, In, false, LogOf(w), "", argv));
  }

  lemma LoggedRoutes(a: Token, w: Token, rest: Args)
    requires ActionWordToken(a)
    ensures TakeRoute([a] + rest) == Ok((false, Route(NotDeferred, [a] + rest)))
    ensures TakeRoute([a, w] + rest) == Ok((false, Route(NotDeferred, [a, w] + rest)))
  {
    NoRoute(a, rest);
    NoRoute(a, [w] + rest);
    assert [a, w] + rest == [a] + ([w] + rest);
  }

  // ---- the short and the long form of a port -----------------------------------------------------------------

  /** "ACTION PORTS/PROTO" */
  function ShortPort(a: Token, items: seq<Item>, proto: string): Args {
    [a, Ports(items, Some(proto))]
  }

  /** "ACTION from any to any port PORTS proto PROTO" */
  function LongPort(a: Token, items: seq<Item>, proto: string): Args {
    [a, Key(FromKey), Key(AnyKey), Key(ToKey), Key(AnyKey), Key(PortKey), Ports(items, None), Key(ProtoKey), Plain(proto)]
  }

  lemma PortFront(a: Token, rest: Args)
    requires ActionWordToken(a) && NothingInFront(rest) && Lacks(rest, SetKey)
    ensures TakeFront([a] + rest) == Ok(Front(ActionOf(a).value, In, false, LogNone, "", [a] + rest))
  {
    UnfoldedArgs(rest);
    FoldHead(a, rest);
    BareFront(a, rest);
  }

  lemma {:induction false} UnfoldedArgs(argv: Args)
    requires Lacks(argv, SetKey)
    ensures FoldSets(argv) == Ok(argv)
    decreases |argv|
  {
    if |argv| >= 2 {
      assert !SetClause(argv);
      UnfoldedArgs(argv[1..]);
      assert [argv[0]] + argv[1..] == argv;
    }
  }

  /** The rule of one port list. */
  function PortRule(id: string, action: Action, ports: seq<PortRange>, proto: Proto): Rule {
    NewRule(id, action, In, LogNone, "").(proto := proto, dst := AddrSpec(AnyIp, ports, ""))
  }

  function PortParsed(id: string, action: Action, items: seq<Item>, proto: string): Result<Parsed> {
    match ProtoOf(proto)
    case None => Err
    case Some(p) =>
      match ParseItems(items)
      case Err => Err
      case Ok(ports) => Ok(Parsed(PortRule(id, action, ports, p), Both))
  }

  lemma LongClauses(id: string, a: Token, items: seq<Item>, proto: string)
    requires ActionWordToken(a)
    ensures var r0 := NewRule(id, ActionOf(a).value, In, LogNone, "");
      match Clauses(Draft(r0, NoSide, Both, Both, false), LongPort(a, items, proto), false)
      case Err => PortParsed(id, ActionOf(a).value, items, proto).Err?
      case Ok(d) => PortParsed(id, ActionOf(a).value, items, proto) == Ok(Parsed(d.rule, Both)) && d.from == d.to == Both
  {
    var d := Draft(NewRule(id, ActionOf(a).value, In, LogNone, ""), NoSide, Both, Both, false);
    var q := [Key(ProtoKey), Plain(proto)];
    var p := [Key(PortKey), Ports(items, None)] + q;
    var t := [Key(ToKey), Key(AnyKey)] + p;
    var f := [Key(FromKey), Key(AnyKey)] + t;
    assert LongPort(a, items, proto) == [a] + f;
    ActionSkipped(d, a, f);
    AnyAddr(d, Source, t);
    AnyAddr(d.(side := Source), Dest, p);
    PortThenProto(d.(side := Dest), items, proto);
  }

  lemma AnyAddr(d: Draft, side: Side, rest: Args)
    requires side != NoSide && d.from == d.to == Both && d.rule.src.ip == d.rule.dst.ip == AnyIp
    requires d.rule.src.setName == d.rule.dst.setName == ""
    ensures Clauses(d, [Key(SideKey(side)), Key(AnyKey)] + rest, true) == Clauses(d.(side := side), rest, true)
  {
    DispatchAddr(d, side, Key(AnyKey), rest);
    PairRead(d, Key(SideKey(side)), Key(AnyKey), rest, d.(side := side));
  }

  lemma PortStep(d: Draft, items: seq<Item>, q: Args)
    requires d.side == Dest && d.rule.dst == AddrSpec(AnyIp, [], "")
    ensures Clauses(d, [Key(PortKey), Ports(items, None)] + q, true)
      == match ParseItems(items)
         case Err => Err
         case Ok(ports) => Clauses(d.(rule := d.rule.(dst := AddrSpec(AnyIp, ports, ""))), q, true)
  {
    var v := Ports(items, None);
    assert ([Key(PortKey), v] + q)[1..] == [v] + q;
    DispatchPort(d, v, q);
    if ParseItems(items).Ok? {
      PairRead(d, Key(PortKey), v, q, d.(rule := d.rule.(dst := AddrSpec(AnyIp, ParseItems(items).value, ""))));
    }
  }

  lemma ProtoStep(d: Draft, proto: string)
    ensures Clauses(d, [Key(ProtoKey), Plain(proto)], true)
      == match ProtoOf(proto)
         case None => Err
         case Some(p) => Ok(d.(rule := d.rule.(proto := p), protoSeen := true))
  {
    var q := [Key(ProtoKey), Plain(proto)];
    assert q[1..] == [Plain(proto)] && q == q + [];
    assert Clause(d, q[0], q[1..]) == ProtoClause(d, Plain(proto));
    if ProtoOf(proto).Some? {
      PairRead(d, Key(ProtoKey), Plain(proto), [], d.(rule := d.rule.(proto := ProtoOf(proto).value), protoSeen := true));
    }
  }

  lemma PortThenProto(d: Draft, items: seq<Item>, proto: string)
    requires d.side == Dest && d.rule.dst == AddrSpec(AnyIp, [], "")
    ensures var out := Clauses(d, [Key(PortKey), Ports(items, None)] + [Key(ProtoKey), Plain(proto)], true);
      match ParseItems(items)
      case Err => out == Err
      case Ok(ports) =>
        (match ProtoOf(proto)
         case None => out == Err
         case Some(p) =>
           out == Ok(d.(rule := d.rule.(dst := AddrSpec(AnyIp, ports, ""), proto := p), protoSeen := true)))
  {
    PortStep(d, items, [Key(ProtoKey), Plain(proto)]);
    if ParseItems(items).Ok? {
      ProtoStep(d.(rule := d.rule.(dst := AddrSpec(AnyIp, ParseItems(items).value, ""))), proto);
    }
  }

  lemma LongCount(a: Token, items: seq<Item>, proto: string, k: Keyword)
    requires ActionWordToken(a)
    ensures CountOf(LongPort(a, items, proto), k)
      == if k == AnyKey then 2 else if k == FromKey || k == ToKey || k == PortKey || k == ProtoKey then 1 else 0
  {
    var x, y := [Key(FromKey), Key(AnyKey)], [Key(ToKey), Key(AnyKey)];
    var z, u := [Key(PortKey), Ports(items, None)], [Key(ProtoKey), Plain(proto)];
    assert LongPort(a, items, proto) == [a] + ((x + y) + (z + u));
    CountConcat([a], (x + y) + (z + u), k);
    CountConcat(x + y, z + u, k);
    CountLacks([a], k);
    FourCount(x, y, k);
    FourCount(z, u, k);
  }

  lemma FourCount(x: Args, y: Args, k: Keyword)
    requires |x| == |y| == 2
    ensures CountOf(x + y, k) == Bit(Is(x[0], k)) + Bit(Is(x[1], k)) + Bit(Is(y[0], k)) + Bit(Is(y[1], k))
  {
    CountConcat(x, y, k);
    assert x == [x[0], x[1]] && y == [y[0], y[1]];
    CountTwo(x[0], x[1], k);
    CountTwo(y[0], y[1], k);
  }

  lemma LongForm(id: string, a: Token, items: seq<Item>, proto: string)
    requires ActionWordToken(a)
    ensures Forms(NewRule(id, ActionOf(a).value, In, LogNone, ""), false, LongPort(a, items, proto))
      == PortParsed(id, ActionOf(a).value, items, proto)
  {
    var argv := LongPort(a, items, proto);
    LongCount(a, items, proto, ToKey);
    LongCount(a, items, proto, FromKey);
    LongCount(a, items, proto, ProtoKey);
    LongCount(a, items, proto, PortKey);
    LongCount(a, items, proto, TypeKey);
    LongCount(a, items, proto, InKey);
    LongCount(a, items, proto, OutKey);
    LongCount(a, items, proto, AppKey);
    LongClauses(id, a, items, proto);
    assert Is(argv[1], FromKey);
  }

  lemma ShortPortForm(id: string, a: Token, items: seq<Item>, proto: string)
    requires ActionWordToken(a)
    ensures Forms(NewRule(id, ActionOf(a).value, In, LogNone, ""), false, ShortPort(a, items, proto))
      == match ProtoOf(proto)
         case None => Err
         case Some(p) => if Portless(p) then Err else PortParsed(id, ActionOf(a).value, items, proto)
  {
  }

  lemma PortlessRefused(id: string, action: Action, ports: seq<PortRange>, p: Proto)
    requires Portless(p) && ports != []
    ensures Finish(Parsed(PortRule(id, action, ports, p), Both), false, NotDeferred) == Err
  {
  }

  lemma LongPortRest(items: seq<Item>, proto: string, k: Keyword)
    requires k != AnyKey && k != FromKey && k != ToKey && k != PortKey && k != ProtoKey
    ensures Lacks(LongPort(Plain("allow"), items, proto)[1..], k)
  {
  }

  lemma LongPortFront(a: Token, items: seq<Item>, proto: string)
    requires ActionWordToken(a)
    ensures TakeFront(LongPort(a, items, proto)) == Ok(Front(ActionOf(a).value, In, false, LogNone, "", LongPort(a, items, proto)))
    ensures TakeRoute(LongPort(a, items, proto)) == Ok((false, Route(NotDeferred, LongPort(a, items, proto))))
  {
    var rest := LongPort(Plain("allow"), items, proto)[1..];
    assert LongPort(a, items, proto) == [a] + rest;
    assert NothingInFront(rest) && Lacks(rest, SetKey) by {
      LongPortRest(items, proto, InKey);
      LongPortRest(items, proto, OutKey);
      LongPortRest(items, proto, LogKey);
      LongPortRest(items, proto, LogAllKey);
      LongPortRest(items, proto, CommentKey);
      LongPortRest(items, proto, SetKey);
    }
    PortFront(a, rest);
    NoRoute(a, rest);
  }

  lemma ShortPortFront(a: Token, items: seq<Item>, proto: string)
    requires ActionWordToken(a)
    ensures TakeFront(ShortPort(a, items, proto)) == Ok(Front(ActionOf(a).value, In, false, LogNone, "", ShortPort(a, items, proto)))
    ensures TakeRoute(ShortPort(a, items, proto)) == Ok((false, Route(NotDeferred, ShortPort(a, items, proto))))
  {
    var rest := ShortPort(a, items, proto)[1..];
    assert ShortPort(a, items, proto) == [a] + rest;
    PortFront(a, rest);
    NoRoute(a, rest);
  }

  /** "ACTION from any to any port PORTS proto PROTO" is "ACTION PORTS/PROTO", errors included. */
  lemma LongIsShort(id: string, a: Token, items: seq<Item>, proto: string)
    requires ActionWordToken(a)
    ensures ParseArgs(id, LongPort(a, items, proto)) == ParseArgs(id, ShortPort(a, items, proto))
  {
    LongPortFront(a, items, proto);
    ShortPortFront(a, items, proto);
    ParseShape(id, LongPort(a, items, proto), TakeFront(LongPort(a, items, proto)).value);
    ParseShape(id, ShortPort(a, items, proto), TakeFront(ShortPort(a, items, proto)).value);
    LongForm(id, a, items, proto);
    ShortPortForm(id, a, items, proto);
    if ProtoOf(proto).Some? && Portless(ProtoOf(proto).value) && ParseItems(items).Ok? {
      PortlessRefused(id, ActionOf(a).value, ParseItems(items).value, ProtoOf(proto).value);
    }
  }
}
