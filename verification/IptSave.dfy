/** iptables-save dumps: what restoring the lines builds, and the rules imported from it. */
module IptSave {
  import opened Rules
  import opened Iptables

  type Spec = seq<Opt>

  datatype PolicyToken = Unset | AcceptToken | DropToken | RejectToken | BadToken

  /** One trimmed line. BadLine stands for every line that is malformed on its own. */
  datatype Line =
    | Comment
    | OpenTable(table: string)
    | DeclareChain(chain: string, policy: PolicyToken)
    | AppendRule(chain: string, spec: Spec)
    | InsertRule(chain: string, pos: int, spec: Spec)
    | Commit
    | BadLine

  datatype Chain = Chain(policy: PolicyToken, declared: bool, rules: seq<Spec>)

  datatype Table = Table(chains: map<string, Chain>, order: seq<string>)

  datatype Save = Save(tables: map<string, Table>, order: seq<string>, current: Option<string>)

  const NO_TABLES: Save := Save(map[], [], None)
  const NO_CHAIN: Chain := Chain(Unset, false, [])

  // ---- the structural parser ------------------------------------------------------------------

  /** The chain, created empty on first mention. */
  function Lookup(t: Table, name: string): Chain {
    if name in t.chains then t.chains[name] else NO_CHAIN
  }

  function WithChain(t: Table, name: string, c: Chain): Table {
    Table(t.chains[name := c], if name in t.chains then t.order else t.order + [name])
  }

  function Inserted(rules: seq<Spec>, pos: nat, spec: Spec): seq<Spec>
    requires 1 <= pos <= |rules| + 1
  {
    rules[..pos - 1] + [spec] + rules[pos - 1..]
  }

  function Step(s: Save, line: Line): Result<Save> {
    match line
    case Comment => Ok(s)
    case OpenTable(name) =>
      if s.current.Some? || name in s.tables then Err
      else Ok(Save(s.tables[name := Table(map[], [])], s.order + [name], Some(name)))
    case DeclareChain(name, policy) =>
      if s.current.None? || s.current.value !in s.tables then Err
      else
        var t := s.tables[s.current.value];
        if Lookup(t, name).declared then Err
        else Ok(s.(tables := s.tables[s.current.value := WithChain(t, name, Chain(policy, true, Lookup(t, name).rules))]))
    case AppendRule(name, spec) =>
      if s.current.None? || s.current.value !in s.tables then Err
      else
        var t := s.tables[s.current.value];
        var c := Lookup(t, name);
        Ok(s.(tables := s.tables[s.current.value := WithChain(t, name, c.(rules := c.rules + [spec]))]))
    case InsertRule(name, pos, spec) =>
      if s.current.None? || s.current.value !in s.tables then Err
      else
        var t := s.tables[s.current.value];
        var c := Lookup(t, name);
        if pos <= 0 || pos > |c.rules| + 1 then Err
        else Ok(s.(tables := s.tables[s.current.value := WithChain(t, name, c.(rules := Inserted(c.rules, pos, spec)))]))
    case Commit => if s.current.None? then Err else Ok(s.(current := None))
    case BadLine => Err
  }

  function Fold(lines: seq<Line>): Result<Save> {
    if lines == [] then Ok(NO_TABLES)
    else
      match Fold(lines[..|lines| - 1])
      case Ok(s) => Step(s, lines[|lines| - 1])
      case Err => Err
  }

  /** The whole dump: every table must be closed. */
  function Parsed(lines: seq<Line>): Result<Save> {
    match Fold(lines)
    case Ok(s) => if s.current.Some? then Err else Ok(s)
    case Err => Err
  }

  lemma InsertedPieces(rules: seq<Spec>, pos: nat, spec: Spec, out: seq<Spec>)
    requires 1 <= pos <= |rules| + 1 == |out| && out[pos - 1] == spec
    requires forall j :: 0 <= j < pos - 1 ==> out[j] == rules[j]
    requires forall j :: pos <= j < |out| ==> out[j] == rules[j - 1]
    ensures out == Inserted(rules, pos, spec)
  {
    assert out[..pos - 1] == rules[..pos - 1];
    assert out[pos..] == rules[pos - 1..];
    assert out == out[..pos - 1] + [out[pos - 1]] + out[pos..];
  }

  /** Makes room by growing the slice and copying its tail one place up. */
  method InsertShift(rules: seq<Spec>, pos: nat, spec: Spec) returns (out: seq<Spec>)
    requires 1 <= pos <= |rules| + 1
    ensures out == Inserted(rules, pos, spec)
  {
    var n := |rules| + 1;
    var cells := new Spec[n](i requires 0 <= i < n => if i < |rules| then rules[i] else []);
    for i := n downto pos
      invariant cells.Length == n
      invariant forall j :: 0 <= j < |rules| && j < i ==> cells[j] == rules[j]
      invariant forall j :: i <= j < n ==> cells[j] == rules[j - 1]
    {
      cells[i] := cells[i - 1];
    }
    cells[pos - 1] := spec;
    out := cells[..];
    InsertedPieces(rules, pos, spec, out);
  }

  /** Runs over the dump, changing only the open table, and stops at the first bad line. */
  method ParseSave(lines: seq<Line>) returns (res: Result<Save>)
    ensures res == Parsed(lines)
  {
    var s := NO_TABLES;
    for i := 0 to |lines|
      invariant Fold(lines[..i]) == Ok(s)
    {
      assert lines[..i + 1][..i] == lines[..i];
      var next := StepLine(s, lines[i]);
      if next.Err? {
        FoldErr(lines, i + 1);
        return Err;
      }
      s := next.value;
    }
    assert lines[..|lines|] == lines;
    res := if s.current.Some? then Err else Ok(s);
  }

  method InsertLine(s: Save, name: string, pos: int, spec: Spec) returns (next: Result<Save>)
    ensures next == Step(s, InsertRule(name, pos, spec))
  {
    if s.current.None? || s.current.value !in s.tables {
      return Err;
    }
    var t := s.tables[s.current.value];
    var c := Lookup(t, name);
    if pos <= 0 || pos > |c.rules| + 1 {
      return Err;
    }
    var rules := InsertShift(c.rules, pos, spec);
    next := Ok(s.(tables := s.tables[s.current.value := WithChain(t, name, c.(rules := rules))]));
  }

  method StepLine(s: Save, line: Line) returns (next: Result<Save>)
    ensures next == Step(s, line)
  {
    match line {
      case InsertRule(name, pos, spec) => next := InsertLine(s, name, pos, spec);
      case _ => next := Step(s, line);
    }
  }

  lemma {:induction false} FoldErr(lines: seq<Line>, i: nat)
    requires i <= |lines| && Fold(lines[..i]).Err?
    ensures Fold(lines).Err?
    decreases |lines|
  {
    if i == |lines| {
      assert lines[..i] == lines;
    } else {
      assert lines[..|lines| - 1][..i] == lines[..i];
      FoldErr(lines[..|lines| - 1], i);
    }
  }

  // ---- what restoring the dump means ----------------------------------------------------------

  /** The table that lines so far have left open. */
  function Open(lines: seq<Line>): Option<string> {
    if lines == [] then None
    else
      match lines[|lines| - 1]
      case OpenTable(name) => Some(name)
      case Commit => None
      case _ => Open(lines[..|lines| - 1])
  }

  /** The rules of one chain of one table, as each restored line leaves them. */
  function Restored(lines: seq<Line>, table: string, chain: string): seq<Spec> {
    if lines == [] then []
    else
      var before := lines[..|lines| - 1];
      var rules := Restored(before, table, chain);
      if Open(before) != Some(table) then rules
      else
        match lines[|lines| - 1]
        case AppendRule(c, spec) => if c == chain then rules + [spec] else rules
        case InsertRule(c, pos, spec) => if c == chain && 1 <= pos <= |rules| + 1 then Inserted(rules, pos, spec) else rules
        case _ => rules
  }

  /** The policy the dump declares for a chain. */
  function Declared(lines: seq<Line>, table: string, chain: string): PolicyToken {
    if lines == [] then Unset
    else
      var before := lines[..|lines| - 1];
      match lines[|lines| - 1]
      case DeclareChain(c, policy) =>
        if Open(before) == Some(table) && c == chain then policy else Declared(before, table, chain)
      case _ => Declared(before, table, chain)
  }

  function ChainIn(s: Save, table: string, chain: string): Chain {
    if table in s.tables then Lookup(s.tables[table], chain) else NO_CHAIN
  }

  ghost predicate Distinct(names: seq<string>) {
    forall i, j :: 0 <= i < j < |names| ==> names[i] != names[j]
  }

  ghost predicate Orderly(t: Table) {
    Distinct(t.order) && forall name :: name in t.order <==> name in t.chains
  }

  ghost predicate WellFormed(s: Save) {
    && Distinct(s.order) && (forall name :: name in s.order <==> name in s.tables)
    && (forall name :: name in s.tables ==> Orderly(s.tables[name]))
    && (s.current.Some? ==> s.current.value in s.tables)
  }

  lemma WithChainOrderly(t: Table, name: string, c: Chain)
    requires Orderly(t)
    ensures Orderly(WithChain(t, name, c))
    ensures forall n :: Lookup(WithChain(t, name, c), n) == if n == name then c else Lookup(t, n)
  {
  }

  lemma StepWellFormed(s: Save, line: Line)
    requires WellFormed(s) && Step(s, line).Ok?
    ensures WellFormed(Step(s, line).value)
  {
    if (line.DeclareChain? || line.AppendRule? || line.InsertRule?) && s.current.Some? {
      var t := s.tables[s.current.value];
      var c := Lookup(Step(s, line).value.tables[s.current.value], line.chain);
      WithChainOrderly(t, line.chain, c);
    }
  }

  /** Outside the open table nothing changes. */
  lemma StepElsewhere(s: Save, line: Line, table: string, chain: string)
    requires WellFormed(s) && Step(s, line).Ok? && s.current != Some(table)
    ensures ChainIn(Step(s, line).value, table, chain) == ChainIn(s, table, chain)
  {
  }

  lemma StepOpen(s: Save, name: string, c: Chain, chain: string)
    requires WellFormed(s) && s.current.Some?
    ensures var t := s.current.value;
      var after := s.(tables := s.tables[t := WithChain(s.tables[t], name, c)]);
      ChainIn(after, t, chain) == if chain == name then c else ChainIn(s, t, chain)
  {
  }

  /** A line changes one chain of the open table. */
  lemma StepChains(s: Save, line: Line, chain: string)
    requires WellFormed(s) && Step(s, line).Ok? && s.current.Some?
    ensures var t := s.current.value;
      var before, after := ChainIn(s, t, chain), ChainIn(Step(s, line).value, t, chain);
      match line
      case AppendRule(c, spec) => after == (if c == chain then before.(rules := before.rules + [spec]) else before)
      case InsertRule(c, pos, spec) =>
        if c == chain then 1 <= pos <= |before.rules| + 1 && after == before.(rules := Inserted(before.rules, pos, spec))
        else after == before
      case DeclareChain(c, policy) => after == (if c == chain then Chain(policy, true, before.rules) else before)
      case _ => after == before
  {
    var t := s.tables[s.current.value];
    match line
    case AppendRule(c, spec) =>
      StepOpen(s, c, Lookup(t, c).(rules := Lookup(t, c).rules + [spec]), chain);
    case InsertRule(c, pos, spec) =>
      StepOpen(s, c, Lookup(t, c).(rules := Inserted(Lookup(t, c).rules, pos, spec)), chain);
    case DeclareChain(c, policy) => StepOpen(s, c, Chain(policy, true, Lookup(t, c).rules), chain);
    case _ =>
  }

  /** The parser's tables hold, chain by chain, what restoring the dump builds. */
  lemma {:induction false} FoldExact(lines: seq<Line>, table: string, chain: string)
    requires Fold(lines).Ok?
    ensures var s := Fold(lines).value;
      && WellFormed(s) && s.current == Open(lines)
      && ChainIn(s, table, chain).rules == Restored(lines, table, chain)
      && ChainIn(s, table, chain).policy == Declared(lines, table, chain)
  {
    if lines != [] {
      var n := |lines| - 1;
      FoldExact(lines[..n], table, chain);
      var s := Fold(lines[..n]).value;
      StepWellFormed(s, lines[n]);
      if s.current == Some(table) {
        StepChains(s, lines[n], chain);
      } else {
        StepElsewhere(s, lines[n], table, chain);
      }
    }
  }
}
