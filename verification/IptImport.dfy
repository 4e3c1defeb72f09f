/** Importing iptables dumps: chains become rules, per-family policies become one policy. */
module IptImport {
  import opened Rules
  import opened Store
  import opened Iptables
  import opened IptSave
  import opened Merge
  import opened FirstMatch

  // ---- verdicts of saved chains ---------------------------------------------

  /** What running a builtin chain of the dump does to a packet; None leaves it to the policy. */
  ghost function Run(specs: seq<Spec>, p: Packet): Option<Action> {
    if specs == [] then None
    else if !Holds(specs[0], p) || TargetOf(specs[0]).None? then Run(specs[1..], p)
    else
      match TargetOf(specs[0]).value
      case ToReturn => None
      case ToOther => Run(specs[1..], p)
      case t => ActionOf(t)
  }

  // ---- one chain -----------------------------------------------------------------------------

  /** Rules after an unconditional RETURN are dead and dropped unread. */
  function ChainRules(specs: seq<Spec>, dir: Direction, v6: bool, emitted: nat): Result<seq<Rule>> {
    if specs == [] then Ok([])
    else
      match Parse(specs[0], dir, v6, emitted == 0)
      case Refused => Err
      case ReturnAlways => Ok([])
      case Skip => ChainRules(specs[1..], dir, v6, emitted)
      case Emit(r) =>
        match ChainRules(specs[1..], dir, v6, emitted + 1)
        case Err => Err
        case Ok(rest) => Ok([r] + rest)
  }

  method ImportChain(specs: seq<Spec>, dir: Direction, v6: bool) returns (res: Result<seq<Rule>>)
    ensures res == ChainRules(specs, dir, v6, 0)
  {
    var rules, truncated, failed := [], false, false;
    ghost var want := ChainRules(specs, dir, v6, 0);
    assert specs[0..] == specs;
    if want.Ok? {
      assert [] + want.value == want.value;
    }
    for i := 0 to |specs|
      invariant !failed && !truncated ==> Prefixed(rules, ChainRules(specs[i..], dir, v6, |rules|)) == want
      invariant !failed && truncated ==> want == Ok(rules)
      invariant failed ==> want == Err
    {
      if truncated || failed {
        continue;
      }
      assert specs[i..][1..] == specs[i + 1..];
      var out := ParseSpec(specs[i], dir, v6, |rules| == 0);
      PrefixedStep(rules, specs[i..], dir, v6);
      match out {
        case Refused => failed := true;
        case ReturnAlways => truncated := true;
        case Skip =>
        case Emit(r) => rules := rules + [r];
      }
    }
    assert rules + [] == rules;
    res := if failed then Err else Ok(rules);
  }

  function Prefixed(done: seq<Rule>, rest: Result<seq<Rule>>): Result<seq<Rule>> {
    match rest
    case Err => Err
    case Ok(more) => Ok(done + more)
  }

  lemma PrefixedStep(done: seq<Rule>, specs: seq<Spec>, dir: Direction, v6: bool)
    requires specs != []
    ensures match Parse(specs[0], dir, v6, |done| == 0)
      case Refused => Prefixed(done, ChainRules(specs, dir, v6, |done|)) == Err
      case ReturnAlways => Prefixed(done, ChainRules(specs, dir, v6, |done|)) == Ok(done)
      case Skip =>
        Prefixed(done, ChainRules(specs, dir, v6, |done|)) == Prefixed(done, ChainRules(specs[1..], dir, v6, |done|))
      case Emit(r) =>
        Prefixed(done, ChainRules(specs, dir, v6, |done|))
        == Prefixed(done + [r], ChainRules(specs[1..], dir, v6, |done| + 1))
  {
    assert done + [] == done;
    match Parse(specs[0], dir, v6, |done| == 0)
    case Emit(r) =>
      match ChainRules(specs[1..], dir, v6, |done| + 1) {
        case Err =>
        case Ok(rest) => assert done + ([r] + rest) == (done + [r]) + rest;
      }
    case _ =>
  }

  ghost predicate OfChain(rules: seq<Rule>, dir: Direction) {
    Imported(rules) && forall i :: 0 <= i < |rules| ==> rules[i].dir == dir
  }

  lemma OfChainCons(r: Rule, rules: seq<Rule>, dir: Direction)
    requires OfChain(rules, dir) && r.ValidAddrs() && r.dir == dir && !r.disabled && r.expiresAt == 0
    ensures OfChain([r] + rules, dir)
  {
  }

  /** For every packet outside established and related, first match over a chain's rules gives
      what running the saved chain gives. */
  lemma {:induction false} ChainFaithful(specs: seq<Spec>, dir: Direction, v6: bool, emitted: nat, now: int, sets: SetFn, p: Packet)
    requires ChainRules(specs, dir, v6, emitted).Ok?
    requires p.Valid() && p.v6 == v6 && !EstRel(p)
    ensures var rules := ChainRules(specs, dir, v6, emitted).value;
      OfChain(rules, dir) && Decide(rules, v6, dir, now, sets, p) == Run(specs, p)
  {
    if specs != [] {
      ParseFaithful(specs[0], dir, v6, emitted == 0, sets, p);
      match Parse(specs[0], dir, v6, emitted == 0)
      case ReturnAlways =>
      case Refused =>
      case Skip => ChainFaithful(specs[1..], dir, v6, emitted, now, sets, p);
      case Emit(r) =>
        ChainFaithful(specs[1..], dir, v6, emitted + 1, now, sets, p);
        var rest := ChainRules(specs[1..], dir, v6, emitted + 1).value;
        OfChainCons(r, rest, dir);
        assert ([r] + rest)[1..] == rest;
    }
  }

  // ---- one dump ----------------------------------------------------------------------------

  function ChainName(d: Direction): string {
    match d
    case In => "INPUT"
    case Out => "OUTPUT"
    case Routed => "FORWARD"
  }

  function BuiltinDir(name: string): Option<Direction> {
    if name == "INPUT" then Some(In)
    else if name == "OUTPUT" then Some(Out)
    else if name == "FORWARD" then Some(Routed)
    else None
  }

  lemma BuiltinNames(name: string, d: Direction)
    ensures BuiltinDir(name) == Some(d) <==> name == ChainName(d)
  {
    assert "INPUT"[0] != "OUTPUT"[0] && "INPUT"[0] != "FORWARD"[0] && "OUTPUT"[0] != "FORWARD"[0];
  }

  /** Builtin chains of a table, for telling an empty table from a populated one. */
  predicate BuiltinChain(table: string, name: string) {
    if name == "INPUT" || name == "OUTPUT" || name == "FORWARD" then table == "filter" || table == "mangle"
    else if name == "PREROUTING" || name == "POSTROUTING" then
      table == "nat" || table == "mangle" || table == "raw" || table == "security"
    else false
  }

  predicate Populated(table: string, name: string, c: IptSave.Chain) {
    c.rules != [] || (BuiltinChain(table, name) && c.policy != Unset && c.policy != AcceptToken)
  }

  predicate BadTable(name: string, t: Table) {
    exists c :: c in t.chains && Populated(name, c, t.chains[c])
  }

  /** The builtin chains in declaration order. */
  function TableRules(t: Table, names: seq<string>, v6: bool): Result<seq<Rule>> {
    if names == [] then Ok([])
    else
      match BuiltinDir(names[0])
      case None => TableRules(t, names[1..], v6)
      case Some(d) =>
        var c := Lookup(t, names[0]);
        if c.policy == BadToken then Err
        else
          match ChainRules(c.rules, d, v6, 0)
          case Err => Err
          case Ok(rules) => Prefixed(rules, TableRules(t, names[1..], v6))
  }

  function PolicyOf(p: PolicyToken): Option<PolicyWord> {
    match p
    case AcceptToken => Some(PolicyAllow)
    case DropToken => Some(PolicyDeny)
    case RejectToken => Some(PolicyReject)
    case _ => None
  }

  /** What one dump contributes. Without a filter table it contributes nothing. */
  datatype Stream = Stream(rules: seq<Rule>, input: Option<PolicyWord>, output: Option<PolicyWord>, forward: Option<PolicyWord>) {
    function For(d: Direction): Option<PolicyWord> {
      match d
      case In => input
      case Out => output
      case Routed => forward
    }

    predicate Empty() {
      rules == [] && input.None? && output.None? && forward.None?
    }
  }

  const NO_STREAM: Stream := Stream([], None, None, None)

  function StreamOf(s: Save, v6: bool): Result<Stream> {
    if exists t :: t in s.tables && t != "filter" && BadTable(t, s.tables[t]) then Err
    else if "filter" !in s.tables then Ok(NO_STREAM)
    else
      var t := s.tables["filter"];
      match TableRules(t, t.order, v6)
      case Err => Err
      case Ok(rules) =>
        Ok(Stream(rules, PolicyOf(Lookup(t, "INPUT").policy), PolicyOf(Lookup(t, "OUTPUT").policy),
                  PolicyOf(Lookup(t, "FORWARD").policy)))
  }

  function Streamed(lines: seq<Line>, v6: bool): Result<Stream> {
    match Parsed(lines)
    case Err => Err
    case Ok(s) => StreamOf(s, v6)
  }

  method ImportTable(t: Table, v6: bool) returns (res: Result<seq<Rule>>)
    ensures res == TableRules(t, t.order, v6)
  {
    var rules, failed := [], false;
    ghost var want := TableRules(t, t.order, v6);
    assert t.order[0..] == t.order;
    if want.Ok? {
      assert [] + want.value == want.value;
    }
    for i := 0 to |t.order|
      invariant !failed ==> Prefixed(rules, TableRules(t, t.order[i..], v6)) == want
      invariant failed ==> want == Err
    {
      assert t.order[i..][1..] == t.order[i + 1..];
      var name := t.order[i];
      if failed || BuiltinDir(name).None? {
        continue;
      }
      var c := Lookup(t, name);
      if c.policy == BadToken {
        failed := true;
        continue;
      }
      var chain := ImportChain(c.rules, BuiltinDir(name).value, v6);
      if chain.Err? {
        failed := true;
      } else {
        PrefixedAssoc(rules, chain.value, TableRules(t, t.order[i + 1..], v6));
        rules := rules + chain.value;
      }
    }
    assert rules + [] == rules;
    res := if failed then Err else Ok(rules);
  }

  lemma PrefixedAssoc(a: seq<Rule>, b: seq<Rule>, rest: Result<seq<Rule>>)
    ensures Prefixed(a, Prefixed(b, rest)) == Prefixed(a + b, rest)
  {
    if rest.Ok? {
      assert a + (b + rest.value) == (a + b) + rest.value;
    }
  }

  method ImportStream(lines: seq<Line>, v6: bool) returns (res: Result<Stream>)
    ensures res == Streamed(lines, v6)
  {
    var save := ParseSave(lines);
    if save.Err? {
      return Err;
    }
    var s := save.value;
    if exists t :: t in s.tables && t != "filter" && BadTable(t, s.tables[t]) {
      return Err;
    }
    if "filter" !in s.tables {
      return Ok(NO_STREAM);
    }
    var t := s.tables["filter"];
    var rules := ImportTable(t, v6);
    match rules {
      case Err => res := Err;
      case Ok(list) =>
        res := Ok(Stream(list, PolicyOf(Lookup(t, "INPUT").policy), PolicyOf(Lookup(t, "OUTPUT").policy),
                         PolicyOf(Lookup(t, "FORWARD").policy)));
    }
  }

  lemma {:induction false} DecideElsewhere(rules: seq<Rule>, v6: bool, dir: Direction, d: Direction, now: int, sets: SetFn, p: Packet)
    requires OfChain(rules, dir) && d != dir
    ensures Decide(rules, v6, d, now, sets, p) == None
  {
    if rules != [] {
      assert rules[0].dir == dir;
      assert forall i :: 0 < i < |rules| ==> rules[i] == rules[1..][i - 1];
      assert forall i :: 0 <= i < |rules[1..]| ==> rules[1..][i] == rules[i + 1];
      DecideElsewhere(rules[1..], v6, dir, d, now, sets, p);
    }
  }

  lemma ImportedConcat(a: seq<Rule>, b: seq<Rule>)
    requires Imported(a) && Imported(b)
    ensures Imported(a + b)
  {
  }

  /** Each builtin chain decides the packets of its own direction only. */
  lemma {:induction false} TableFaithful(t: Table, names: seq<string>, v6: bool, d: Direction, now: int, sets: SetFn, p: Packet)
    requires TableRules(t, names, v6).Ok? && Distinct(names)
    requires p.Valid() && p.v6 == v6 && !EstRel(p)
    ensures var rules := TableRules(t, names, v6).value;
      && Imported(rules)
      && Decide(rules, v6, d, now, sets, p) == if ChainName(d) in names then Run(Lookup(t, ChainName(d)).rules, p) else None
  {
    if names != [] {
      assert Distinct(names[1..]) && names == [names[0]] + names[1..];
      TableFaithful(t, names[1..], v6, d, now, sets, p);
      BuiltinNames(names[0], d);
      if BuiltinDir(names[0]).Some? {
        var dir := BuiltinDir(names[0]).value;
        ChainOfTable(t, names, v6, dir, d, now, sets, p);
      }
    }
  }

  lemma ChainOfTable(t: Table, names: seq<string>, v6: bool, dir: Direction, d: Direction, now: int, sets: SetFn, p: Packet)
    requires TableRules(t, names, v6).Ok? && names != [] && BuiltinDir(names[0]) == Some(dir)
    requires p.Valid() && p.v6 == v6 && !EstRel(p)
    requires var rest := TableRules(t, names[1..], v6); rest.Ok? && Imported(rest.value)
    ensures var rules, rest := TableRules(t, names, v6).value, TableRules(t, names[1..], v6).value;
      && Imported(rules)
      && Decide(rules, v6, d, now, sets, p)
         == if dir == d && Run(Lookup(t, names[0]).rules, p).Some? then Run(Lookup(t, names[0]).rules, p)
            else Decide(rest, v6, d, now, sets, p)
  {
    var own, rest := ChainRules(Lookup(t, names[0]).rules, dir, v6, 0).value, TableRules(t, names[1..], v6).value;
    ChainFaithful(Lookup(t, names[0]).rules, dir, v6, 0, now, sets, p);
    ImportedConcat(own, rest);
    DecideConcat(own, rest, v6, d, now, sets, p);
    if dir != d {
      DecideElsewhere(own, v6, dir, d, now, sets, p);
    }
  }

  /** An accepted dump: its rules decide as its saved chains, and its policies are the declared ones. */
  lemma StreamFaithful(lines: seq<Line>, v6: bool, d: Direction, now: int, sets: SetFn, p: Packet)
    requires Streamed(lines, v6).Ok?
    requires p.Valid() && p.v6 == v6 && !EstRel(p)
    ensures var s := Streamed(lines, v6).value;
      && Imported(s.rules)
      && Decide(s.rules, v6, d, now, sets, p) == Run(Restored(lines, "filter", ChainName(d)), p)
      && s.For(d) == PolicyOf(Declared(lines, "filter", ChainName(d)))
  {
    FoldExact(lines, "filter", ChainName(d));
    var s := Parsed(lines).value;
    if "filter" in s.tables {
      var t := s.tables["filter"];
      assert Orderly(t);
      TableFaithful(t, t.order, v6, d, now, sets, p);
    }
  }
}
