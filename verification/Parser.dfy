/** The parser of rule commands, clause by clause, on a list of arguments. */
module Parser {
  import opened Bytes
  import opened Rules
  import opened PortOrder
  import opened Command

  /** The address families a rule applies to. */
  datatype Family = Both | V4 | V6

  datatype Op = Op(rule: Rule, routed: bool, family: Family)

  predicate IsDir(t: Token) {
    IsLower(t, InKey) || IsLower(t, OutKey)
  }

  function DirOf(t: Token): Direction {
    if IsLower(t, OutKey) then Out else In
  }

  predicate IsLog(t: Token) {
    IsLower(t, LogKey) || IsLower(t, LogAllKey)
  }

  // ---- the front of the command ----------------------------------------------------------

  datatype Stripped = Stripped(found: bool, argv: Args)

  function StripWord(argv: Args, word: Keyword): Stripped {
    if argv != [] && IsLower(argv[0], word) then Stripped(true, argv[1..]) else Stripped(false, argv)
  }

  /** The second interface clause of a route command, put aside. */
  datatype Deferral = NotDeferred | Deferred(dir: Direction, name: Token)

  datatype Route = Route(later: Deferral, argv: Args)

  /** The base grammar takes one interface clause; the one that comes second is cut out. */
  function DeferSecond(argv: Args): Result<Route> {
    var ws := JoinedWords(argv);
    var inOn, outOn := HasPair(ws, InKey, OnKey), HasPair(ws, OutKey, OnKey);
    if inOn && outOn then
      var cutIn := IndexOf(argv, InKey) > IndexOf(argv, OutKey);
      var i := IndexOf(argv, if cutIn then InKey else OutKey);
      if i >= 0 && i + 2 < |argv| then
        Ok(Route(Deferred(if cutIn then In else Out, argv[i + 2]), argv[..i] + argv[i + 3..]))
      else Err
    else if !inOn && !outOn && !HasPair(ws, AppKey, InKey) && !HasPair(ws, AppKey, OutKey)
            && (HasInner(ws, InKey) || HasInner(ws, OutKey)) then Err
    else Ok(Route(NotDeferred, argv))
  }

  datatype Directed = Directed(dir: Direction, argv: Args)

  /** A bare direction is dropped; one that opens an interface clause stays. */
  function TakeDirection(argv: Args): Directed
    requires |argv| >= 2
  {
    var dir := if IsDir(argv[1]) then DirOf(argv[1]) else In;
    if |argv| > 2 && !Is(argv[2], OnKey) && IsDir(argv[1]) then Directed(dir, [argv[0]] + argv[2..])
    else Directed(dir, argv)
  }

  /** An interface clause loses its "on"; any other use of a direction word is refused. */
  function TakeIface(argv: Args): Result<Stripped> {
    if |argv| > 1 && (CountOf(argv, InKey) > 0 || CountOf(argv, OutKey) > 0) then
      if !IsDir(argv[1]) || |argv| < 3 || !IsLower(argv[2], OnKey) then Err
      else Ok(Stripped(true, argv[..2] + argv[3..]))
    else Ok(Stripped(false, argv))
  }

  datatype Logged = Logged(log: LogType, argv: Args)

  /** log or log-all directly follows the action or the interface clause. */
  function TakeLog(hasIface: bool, argv: Args): Result<Logged> {
    var at := if hasIface && |argv| > 3 && IsLog(argv[3]) then 3
              else if |argv| > 2 && IsLog(argv[1]) then 1 else 0;
    var log := if at == 0 then LogNone else if IsLower(argv[at], LogKey) then LogNew else LogAll;
    var rest := if at == 0 then argv else argv[..at] + argv[at + 1..];
    if IndexOf(rest, LogKey) >= 0 || IndexOf(rest, LogAllKey) >= 0 then Err else Ok(Logged(log, rest))
  }

  datatype Commented = Commented(comment: string, argv: Args)

  function TakeComment(argv: Args): Result<Commented> {
    var i := IndexOf(argv, CommentKey);
    if i < 0 then Ok(Commented("", argv))
    else if i == |argv| - 1 || TextOf(argv[i + 1]).None? || '\'' in TextOf(argv[i + 1]).value then Err
    else Ok(Commented(TextOf(argv[i + 1]).value, argv[..i] + argv[i + 2..]))
  }

  predicate SetClause(argv: Args) {
    |argv| >= 2 && (Is(argv[0], FromKey) || Is(argv[0], ToKey)) && Is(argv[1], SetKey)
  }

  /** "from set NAME" becomes "from set:NAME", and so for "to". */
  function FoldSets(argv: Args): Result<Args>
    decreases |argv|
  {
    if |argv| < 2 then Ok(argv)
    else if SetClause(argv) then
      if |argv| < 3 || TextOf(argv[2]).None? then Err
      else match FoldSets(argv[3..])
        case Err => Err
        case Ok(rest) => Ok([argv[0], SetRef(TextOf(argv[2]).value)] + rest)
    else match FoldSets(argv[1..])
      case Err => Err
      case Ok(rest) => Ok([argv[0]] + rest)
  }

  // ---- clauses ------------------------------------------------------------------------------

  function SetIface(r: Rule, dir: Direction, t: Token): Result<Rule> {
    match TextOf(t)
    case None => Err
    case Some(name) =>
      if !ValidIface(name) then Err
      else Ok(if dir == In then r.(ifaceIn := NameOf(name)) else r.(ifaceOut := NameOf(name)))
  }

  /** PORT[/PROTO]. Without profiles and service names no word stands for a port. */
  function ShortToken(r: Rule, t: Token): Result<Rule> {
    match t
    case Ports(items, proto) =>
      (var p := if proto.None? then Some(AnyProto) else ProtoOf(proto.value);
       if p.None? || Portless(p.value) then Err
       else match ParseItems(items)
         case Err => Err
         case Ok(ports) => Ok(r.(proto := p.value, dst := r.dst.(ports := ports))))
    case _ => Err
  }

  datatype Located = Located(ip: Ip, setName: string, family: Family)

  function ParseAddr(t: Token): Result<Located> {
    match t
    case SetRef(name) => if name == "" then Err else Ok(Located(AnyIp, name, Both))
    case Word(AnyKey, _, _) => Ok(Located(AnyIp, "", Both))
    case Address(ip) =>
      if ip.Net? && ip.Valid() && (|ip.bytes| == 4 || |ip.bytes| == 16)
      then Ok(Located(ip, "", if |ip.bytes| == 4 then V4 else V6))
      else Err
    case _ => Err
  }

  datatype Side = NoSide | Source | Dest

  /** The rule so far, the side a port clause would belong to, and the families named. */
  datatype Draft = Draft(rule: Rule, side: Side, from: Family, to: Family, protoSeen: bool)

  predicate IsKey(t: Token) {
    Is(t, ProtoKey) || Is(t, TypeKey) || Is(t, FromKey) || Is(t, ToKey) || Is(t, PortKey)
    || Is(t, AppKey) || Is(t, InKey) || Is(t, OutKey)
  }

  function ProtoClause(d: Draft, v: Token): Result<Draft> {
    match TextOf(v)
    case None => Err
    case Some(s) =>
      match ProtoOf(s)
      case None => Err
      case Some(p) => Ok(d.(rule := d.rule.(proto := p), protoSeen := true))
  }

  /** Numeric types only, and only after a protocol clause that has types. */
  function TypeClause(d: Draft, v: Token): Result<Draft> {
    if !d.protoSeen || (d.rule.proto != Icmp && d.rule.proto != Icmpv6) then Err
    else match v
      case Ports(items, None) =>
        if |items| == 1 && items[0].One? && items[0].n < 256
        then Ok(d.(rule := d.rule.(icmpType := Some(items[0].n as Byte))))
        else Err
      case _ => Err
  }

  function IfaceClause(d: Draft, dir: Direction, v: Token): Result<Draft> {
    match SetIface(d.rule, dir, v)
    case Err => Err
    case Ok(r) => Ok(d.(rule := r))
  }

  function AddrClause(d: Draft, side: Side, v: Token): Result<Draft> {
    match ParseAddr(v)
    case Err => Err
    case Ok(l) =>
      if side == Source
      then Ok(d.(rule := d.rule.(src := d.rule.src.(ip := l.ip, setName := l.setName)), side := side, from := l.family))
      else Ok(d.(rule := d.rule.(dst := d.rule.dst.(ip := l.ip, setName := l.setName)), side := side, to := l.family))
  }

  function PortClause(d: Draft, v: Token): Result<Draft> {
    if d.side == NoSide then Err
    else match v
      case Ports(items, None) =>
        (match ParseItems(items)
         case Err => Err
         case Ok(ports) =>
           Ok(d.(rule := if d.side == Source then d.rule.(src := d.rule.src.(ports := ports))
                         else d.rule.(dst := d.rule.dst.(ports := ports)))))
      case _ => Err
  }

  /** What one token does, given the tokens after it. No profile stands behind "app". */
  function Clause(d: Draft, key: Token, rest: Args): Result<Draft> {
    if !IsKey(key) then Ok(d)
    else if rest == [] then Err
    else if Is(key, ProtoKey) then ProtoClause(d, rest[0])
    else if Is(key, TypeKey) then TypeClause(d, rest[0])
    else if Is(key, InKey) then IfaceClause(d, In, rest[0])
    else if Is(key, OutKey) then IfaceClause(d, Out, rest[0])
    else if Is(key, FromKey) then AddrClause(d, Source, rest[0])
    else if Is(key, ToKey) then AddrClause(d, Dest, rest[0])
    else if Is(key, PortKey) then PortClause(d, rest[0])
    else Err
  }

  /** The token loop. Tokens at odd positions must be keys; keys act wherever they stand. */
  function Clauses(d: Draft, ts: Args, odd: bool): Result<Draft>
    decreases |ts|
  {
    if ts == [] then Ok(d)
    else if odd && !IsKey(ts[0]) then Err
    else match Clause(d, ts[0], ts[1..])
      case Err => Err
      case Ok(d') => Clauses(d', ts[1..], !odd)
  }

  predicate TooMany(argv: Args) {
    || CountOf(argv, ToKey) > 1 || CountOf(argv, FromKey) > 1 || CountOf(argv, ProtoKey) > 1
    || CountOf(argv, PortKey) > 2 || CountOf(argv, TypeKey) > 1 || CountOf(argv, InKey) > 1
    || CountOf(argv, OutKey) > 1 || CountOf(argv, AppKey) > 2
    || (CountOf(argv, AppKey) > 0 && CountOf(argv, ProtoKey) > 0)
  }

  datatype Parsed = Parsed(rule: Rule, family: Family)

  function FamilyOf(from: Family, to: Family): Result<Family> {
    if from != Both && to != Both && from != to then Err
    else Ok(if from != Both then from else to)
  }

  function FullForm(r: Rule, argv: Args): Result<Parsed> {
    if TooMany(argv) then Err
    else match Clauses(Draft(r, NoSide, Both, Both, false), argv, false)
      case Err => Err
      case Ok(d) =>
        match FamilyOf(d.from, d.to)
        case Err => Err
        case Ok(f) => Ok(Parsed(d.rule, f))
  }

  /** Whether some token is one of the words that open a clause. */
  predicate HasClauseWord(argv: Args) {
    IndexOf(argv, FromKey) >= 0 || IndexOf(argv, ToKey) >= 0 || IndexOf(argv, InKey) >= 0 || IndexOf(argv, OutKey) >= 0
  }

  /** ACTION PORT, ACTION in|out IFACE PORT, or the full form. */
  function Forms(r: Rule, hasIface: bool, argv: Args): Result<Parsed> {
    if |argv| == 2 then
      match ShortToken(r, argv[1])
      case Err => Err
      case Ok(r') => Ok(Parsed(r', Both))
    else if hasIface && |argv| == 4 then
      match SetIface(r, DirOf(argv[1]), argv[2])
      case Err => Err
      case Ok(r1) =>
        match ShortToken(r1, argv[3])
        case Err => Err
        case Ok(r2) => Ok(Parsed(r2, Both))
    else if (|argv| + 1) % 2 != 0 then Err
    else if !HasClauseWord(argv) then Err
    else FullForm(r, argv)
  }

  // ---- after the clauses -----------------------------------------------------------------------

  predicate MultiPorts(ports: seq<PortRange>) {
    |ports| > 1 || (|ports| == 1 && ports[0].lo != ports[0].hi)
  }

  /** Protocols that exist in one family narrow the rule to it or contradict its addresses. */
  function NarrowFamily(p: Proto, f: Family): Result<Family> {
    if p == Icmpv6 then (if f == V4 then Err else Ok(V6))
    else if Ipv4Only(p) then (if f == V6 then Err else Ok(V4))
    else Ok(f)
  }

  predicate PortsFit(r: Rule) {
    && (Portless(r.proto) ==> r.src.ports == [] && r.dst.ports == [])
    && (MultiPorts(r.src.ports) || MultiPorts(r.dst.ports) ==> r.proto == Tcp || r.proto == Udp)
  }

  function Stamp(p: Proto): PortProto {
    if p == Tcp then TcpPort else if p == Udp then UdpPort else AnyPort
  }

  function StampPorts(ports: seq<PortRange>, p: Proto): seq<PortRange> {
    seq(|ports|, i requires 0 <= i < |ports| =>
      if ports[i].proto == Blank then ports[i].(proto := Stamp(p)) else ports[i])
  }

  function StampRule(r: Rule): Rule {
    r.(src := r.src.(ports := StampPorts(r.src.ports, r.proto)), dst := r.dst.(ports := StampPorts(r.dst.ports, r.proto)))
  }

  /** Routed rules keep the parsed direction beside the routed one. */
  function MarkRouted(r: Rule): Rule {
    r.(dir := Routed, routeDir := if r.dir == Out then RouteOut else RouteIn)
  }

  /** An empty name counts as no clause. */
  function ApplyDeferred(r: Rule, later: Deferral): Result<Rule> {
    match later
    case NotDeferred => Ok(r)
    case Deferred(dir, name) => if TextOf(name) == Some("") then Ok(r) else SetIface(r, dir, name)
  }

  function RouteRule(r: Rule, routed: bool, later: Deferral): Result<Rule> {
    if routed then ApplyDeferred(MarkRouted(r), later) else Ok(r)
  }

  function NormalizePorts(r: Rule): Rule {
    r.(src := r.src.(ports := SortPorts(r.src.ports)), dst := r.dst.(ports := SortPorts(r.dst.ports)))
  }

  function NewRule(id: string, action: Action, dir: Direction, log: LogType, comment: string): Rule {
    Rule(id, action, dir, NoRouteDir, [], [], AnyProto, None, AddrSpec(AnyIp, [], ""), AddrSpec(AnyIp, [], ""),
         "", "", log, comment, 0, false, false)
  }

  function Finish(p: Parsed, routed: bool, later: Deferral): Result<Op> {
    match NarrowFamily(p.rule.proto, p.family)
    case Err => Err
    case Ok(family) =>
      if !PortsFit(p.rule) then Err
      else match RouteRule(StampRule(p.rule), routed, later)
        case Err => Err
        case Ok(r) => Ok(Op(NormalizePorts(r), routed, family))
  }

  /** Everything the clauses in front of the match determine. */
  datatype Front = Front(action: Action, dir: Direction, hasIface: bool, log: LogType, comment: string, argv: Args)

  function TakeFront(argv: Args): Result<Front> {
    if |argv| < 2 || ActionOf(argv[0]).None? then Err
    else
      var d := TakeDirection(argv);
      match TakeIface(d.argv)
      case Err => Err
      case Ok(i) =>
        match TakeLog(i.found, i.argv)
        case Err => Err
        case Ok(l) =>
          match TakeComment(l.argv)
          case Err => Err
          case Ok(c) =>
            match FoldSets(c.argv)
            case Err => Err
            case Ok(rest) => Ok(Front(ActionOf(argv[0]).value, d.dir, i.found, l.log, c.comment, rest))
  }

  function ParseFront(id: string, f: Front): Result<Parsed> {
    if |f.argv| < 2 || |f.argv| > 13 then Err
    else Forms(NewRule(id, f.action, f.dir, f.log, f.comment), f.hasIface, f.argv)
  }

  function TakeRoute(args: Args): Result<(bool, Route)> {
    var routed := StripWord(args, RouteKey);
    var argv := StripWord(routed.argv, RuleKey).argv;
    if !routed.found then Ok((false, Route(NotDeferred, argv)))
    else match DeferSecond(argv)
      case Err => Err
      case Ok(route) => Ok((true, route))
  }

  /** The rule an argument list denotes, or an error. */
  function ParseArgs(id: string, args: Args): Result<Op> {
    match TakeRoute(args)
    case Err => Err
    case Ok((routed, route)) =>
      match TakeFront(route.argv)
      case Err => Err
      case Ok(f) =>
        match ParseFront(id, f)
        case Err => Err
        case Ok(p) => Finish(p, routed, route.later)
  }

  // ---- the parser as it runs ---------------------------------------------------------------------

  function Prefixed(done: Args, r: Result<Args>): Result<Args> {
    match r
    case Err => Err
    case Ok(rest) => Ok(done + rest)
  }

  lemma Reassoc(a: Args, b: Args, c: Args)
    ensures a + (b + c) == a + b + c
  {
  }

  lemma FoldStep(done: Args, argv: Args)
    requires |argv| >= 2 && !SetClause(argv)
    ensures Prefixed(done, FoldSets(argv)) == Prefixed(done + [argv[0]], FoldSets(argv[1..]))
  {
    match FoldSets(argv[1..]) {
      case Err =>
      case Ok(rest) => Reassoc(done, [argv[0]], rest);
    }
  }

  /** A list that starts with no clause word is folded past its first token. */
  lemma FoldHead(t: Token, rest: Args)
    requires !Is(t, FromKey) && !Is(t, ToKey)
    ensures FoldSets([t] + rest) == Prefixed([t], FoldSets(rest))
  {
    var all := [t] + rest;
    assert all[1..] == rest;
    if rest == [] {
      assert all == [t] + [];
    }
  }

  lemma FoldMerge(done: Args, argv: Args)
    requires |argv| >= 3 && SetClause(argv) && TextOf(argv[2]).Some?
    ensures Prefixed(done, FoldSets(argv))
         == Prefixed(done + [argv[0]], FoldSets([SetRef(TextOf(argv[2]).value)] + argv[3..]))
  {
    var folded := SetRef(TextOf(argv[2]).value);
    FoldHead(folded, argv[3..]);
    match FoldSets(argv[3..]) {
      case Err =>
      case Ok(rest) =>
        Reassoc(done, [argv[0]], [folded] + rest);
        assert [argv[0], folded] + rest == [argv[0]] + ([folded] + rest);
    }
  }

  /** Splices the set name into the address token, scanning left to right. */
  method FoldSetNames(args: Args) returns (r: Result<Args>)
    ensures r == FoldSets(args)
  {
    var argv, i := args, 0;
    assert argv[..0] == [] && argv[0..] == argv;
    assert FoldSets(argv).Ok? ==> [] + FoldSets(argv).value == FoldSets(argv).value;
    while i + 1 < |argv|
      invariant 0 <= i <= |argv|
      invariant FoldSets(args) == Prefixed(argv[..i], FoldSets(argv[i..]))
      decreases |argv| - i
    {
      ghost var was := argv;
      if SetClause(argv[i..]) {
        if i + 2 >= |argv| || TextOf(argv[i + 2]).None? {
          return Err;
        }
        FoldMerge(argv[..i], argv[i..]);
        argv := argv[..i + 1] + [SetRef(TextOf(argv[i + 2]).value)] + argv[i + 3..];
        assert was[i..][3..] == was[i + 3..];
        assert argv[i + 1..] == [SetRef(TextOf(was[i + 2]).value)] + was[i + 3..];
      } else {
        FoldStep(argv[..i], argv[i..]);
        assert argv[i..][1..] == argv[i + 1..];
      }
      assert argv[..i + 1] == was[..i] + [was[i]];
      i := i + 1;
    }
    assert argv[..i] + argv[i..] == argv;
    r := Ok(argv);
  }

  /** What the token at the front does, then the rest. */
  function After(r: Result<Draft>, rest: Args, odd: bool): Result<Draft> {
    match r
    case Err => Err
    case Ok(d) => Clauses(d, rest, odd)
  }

  function FirstClause(d: Draft, ts: Args, odd: bool): Result<Draft>
    requires ts != []
  {
    if odd && !IsKey(ts[0]) then Err else Clause(d, ts[0], ts[1..])
  }

  lemma ClausesStep(r: Result<Draft>, argv: Args, i: nat)
    requires r.Ok? && i < |argv|
    ensures argv[i..] != []
    ensures After(r, argv[i..], i % 2 != 0)
         == After(FirstClause(r.value, argv[i..], i % 2 != 0), argv[i + 1..], (i + 1) % 2 != 0)
  {
    assert argv[i..][1..] == argv[i + 1..];
  }

  method RunClauses(d: Draft, argv: Args) returns (res: Result<Draft>)
    ensures res == Clauses(d, argv, false)
  {
    res := Ok(d);
    assert argv[0..] == argv;
    for i := 0 to |argv|
      invariant After(Ok(d), argv, false) == After(res, argv[i..], i % 2 != 0)
    {
      if res.Err? {
        return;
      }
      ClausesStep(res, argv, i);
      res := FirstClause(res.value, argv[i..], i % 2 != 0);
    }
  }

  method ParseForms(r: Rule, hasIface: bool, argv: Args) returns (res: Result<Parsed>)
    ensures res == Forms(r, hasIface, argv)
  {
    if |argv| == 2 {
      var short := ShortToken(r, argv[1]);
      return if short.Ok? then Ok(Parsed(short.value, Both)) else Err;
    }
    if hasIface && |argv| == 4 {
      var named := SetIface(r, DirOf(argv[1]), argv[2]);
      if named.Err? {
        return Err;
      }
      var short := ShortToken(named.value, argv[3]);
      return if short.Ok? then Ok(Parsed(short.value, Both)) else Err;
    }
    if (|argv| + 1) % 2 != 0 || !HasClauseWord(argv) || TooMany(argv) {
      return Err;
    }
    var d := RunClauses(Draft(r, NoSide, Both, Both, false), argv);
    match d {
      case Err => res := Err;
      case Ok(draft) =>
        match FamilyOf(draft.from, draft.to) {
          case Err => res := Err;
          case Ok(f) => res := Ok(Parsed(draft.rule, f));
        }
    }
  }

  /** Cuts the second interface clause out of a route command. */
  method CutSecond(args: Args) returns (res: Result<Route>)
    ensures res == DeferSecond(args)
  {
    var ws := JoinedWords(args);
    var inOn, outOn := HasPair(ws, InKey, OnKey), HasPair(ws, OutKey, OnKey);
    if inOn && outOn {
      var inAt := IndexTok(args, InKey);
      var at := IndexTok(args, OutKey);
      var dir := Out;
      if inAt > at {
        dir, at := In, inAt;
      }
      if at < 0 || at + 2 >= |args| {
        return Err;
      }
      return Ok(Route(Deferred(dir, args[at + 2]), args[..at] + args[at + 3..]));
    }
    if !inOn && !outOn && !HasPair(ws, AppKey, InKey) && !HasPair(ws, AppKey, OutKey)
       && (HasInner(ws, InKey) || HasInner(ws, OutKey)) {
      return Err;
    }
    res := Ok(Route(NotDeferred, args));
  }

  /** The words in front are dropped before a route command is cut. */
  method ParseRoute(args: Args) returns (res: Result<(bool, Route)>)
    ensures res == TakeRoute(args)
  {
    var argv, routed := args, false;
    if |argv| > 0 && IsLower(argv[0], RouteKey) {
      routed, argv := true, argv[1..];
    }
    if |argv| > 0 && IsLower(argv[0], RuleKey) {
      argv := argv[1..];
    }
    if !routed {
      return Ok((false, Route(NotDeferred, argv)));
    }
    var cut := CutSecond(argv);
    if cut.Err? {
      return Err;
    }
    res := Ok((true, cut.value));
  }

  /** The log word is looked for in two places and refused anywhere else. */
  method SpliceLog(hasIface: bool, args: Args) returns (res: Result<Logged>)
    ensures res == TakeLog(hasIface, args)
  {
    var argv, log, at := args, LogNone, 0;
    if hasIface && |argv| > 3 && IsLog(argv[3]) {
      at := 3;
    } else if |argv| > 2 && IsLog(argv[1]) {
      at := 1;
    }
    if at > 0 {
      log := if IsLower(argv[at], LogKey) then LogNew else LogAll;
      argv := argv[..at] + argv[at + 1..];
    }
    var again := IndexTok(argv, LogKey);
    var allAgain := IndexTok(argv, LogAllKey);
    if again >= 0 || allAgain >= 0 {
      return Err;
    }
    res := Ok(Logged(log, argv));
  }

  /** A bare direction goes; an interface clause loses its "on"; nothing else may use the words. */
  method SpliceDirection(args: Args) returns (ok: bool, dir: Direction, hasIface: bool, argv: Args)
    requires |args| >= 2
    ensures dir == TakeDirection(args).dir
    ensures TakeIface(TakeDirection(args).argv) == if ok then Ok(Stripped(hasIface, argv)) else Err
  {
    argv, dir, hasIface := args, In, false;
    if IsDir(argv[1]) {
      dir := DirOf(argv[1]);
    }
    if |argv| > 2 && !Is(argv[2], OnKey) && IsDir(argv[1]) {
      argv := argv[..1] + argv[2..];
    }
    assert argv == TakeDirection(args).argv;
    var ins := CountTok(argv, InKey);
    var outs := CountTok(argv, OutKey);
    if ins > 0 || outs > 0 {
      if !IsDir(argv[1]) || |argv| < 3 || !IsLower(argv[2], OnKey) {
        return false, dir, hasIface, argv;
      }
      argv, hasIface := argv[..2] + argv[3..], true;
    }
    ok := true;
  }

  method SpliceComment(args: Args) returns (res: Result<Commented>)
    ensures res == TakeComment(args)
  {
    var at := IndexTok(args, CommentKey);
    if at < 0 {
      return Ok(Commented("", args));
    }
    if at == |args| - 1 {
      return Err;
    }
    var text := TextOf(args[at + 1]);
    if text.None? || '\'' in text.value {
      return Err;
    }
    res := Ok(Commented(text.value, args[..at] + args[at + 2..]));
  }

  /** The splices in front of the match, one after the other on one argument list. */
  method ParseFrontArgs(args: Args) returns (res: Result<Front>)
    ensures res == TakeFront(args)
  {
    if |args| < 2 || ActionOf(args[0]).None? {
      return Err;
    }
    var ok, dir, hasIface, argv := SpliceDirection(args);
    if !ok {
      return Err;
    }
    var l := SpliceLog(hasIface, argv);
    if l.Err? { return Err; }
    var c := SpliceComment(l.value.argv);
    if c.Err? { return Err; }
    var folded := FoldSetNames(c.value.argv);
    if folded.Err? { return Err; }
    res := Ok(Front(ActionOf(args[0]).value, dir, hasIface, l.value.log, c.value.comment, folded.value));
  }

  /** Writes the rule's protocol into the ranges that carry none. */
  method StampProto(start: seq<PortRange>, p: Proto) returns (ports: seq<PortRange>)
    ensures ports == StampPorts(start, p)
  {
    ports := start;
    for i := 0 to |ports|
      invariant |ports| == |start|
      invariant forall j :: 0 <= j < i ==> ports[j] == StampPorts(start, p)[j]
      invariant forall j :: i <= j < |ports| ==> ports[j] == start[j]
    {
      if ports[i].proto == Blank {
        ports := ports[i := ports[i].(proto := Stamp(p))];
      }
    }
  }

  method CheckFamily(p: Proto, start: Family) returns (res: Result<Family>)
    ensures res == NarrowFamily(p, start)
  {
    var family := start;
    if p == Icmpv6 {
      if family == V4 {
        return Err;
      }
      family := V6;
    }
    if Ipv4Only(p) && family == Both {
      family := V4;
    }
    if Ipv4Only(p) && family == V6 {
      return Err;
    }
    res := Ok(family);
  }

  method CheckPorts(r: Rule) returns (ok: bool)
    ensures ok <==> PortsFit(r)
  {
    if Portless(r.proto) && (|r.dst.ports| > 0 || |r.src.ports| > 0) {
      return false;
    }
    ok := !(MultiPorts(r.src.ports) || MultiPorts(r.dst.ports)) || r.proto == Tcp || r.proto == Udp;
  }

  /** The parsed direction moves aside, and the interface cut out before comes back. */
  method MarkRoute(start: Rule, later: Deferral) returns (res: Result<Rule>)
    ensures res == RouteRule(start, true, later)
  {
    var r := start;
    r := r.(routeDir := if r.dir == Out then RouteOut else RouteIn);
    r := r.(dir := Routed);
    res := Ok(r);
    if later.Deferred? && TextOf(later.name) != Some("") {
      res := SetIface(r, later.dir, later.name);
    }
  }

  /** The checks and the marks that follow the clauses. */
  method FinishParse(p: Parsed, routed: bool, later: Deferral) returns (res: Result<Op>)
    ensures res == Finish(p, routed, later)
  {
    var r := p.rule;
    var family := CheckFamily(r.proto, p.family);
    if family.Err? { return Err; }
    var fits := CheckPorts(r);
    if !fits { return Err; }
    var srcPorts := StampProto(r.src.ports, r.proto);
    var dstPorts := StampProto(r.dst.ports, r.proto);
    r := r.(src := r.src.(ports := srcPorts), dst := r.dst.(ports := dstPorts));
    if routed {
      var marked := MarkRoute(r, later);
      if marked.Err? { return Err; }
      r := marked.value;
    }
    res := Ok(Op(NormalizePorts(r), routed, family.value));
  }

  method ParseRuleArgs(id: string, args: Args) returns (res: Result<Op>)
    ensures res == ParseArgs(id, args)
  {
    var taken := ParseRoute(args);
    if taken.Err? { return Err; }
    var (routed, route) := taken.value;
    var front := ParseFrontArgs(route.argv);
    if front.Err? { return Err; }
    var f := front.value;
    if |f.argv| < 2 || |f.argv| > 13 {
      return Err;
    }
    var r := NewRule(id, f.action, f.dir, f.log, f.comment);
    var p := ParseForms(r, f.hasIface, f.argv);
    if p.Err? { return Err; }
    res := FinishParse(p.value, routed, route.later);
  }
}
