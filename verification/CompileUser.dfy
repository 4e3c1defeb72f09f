/** The user chains decide each packet as the first matching rule says. */
module CompileUser {
  import opened Bytes
  import opened Cidr
  import opened Rules
  import opened Nft
  import opened Store
  import opened Compile
  import opened CompileMatch
  import opened ChainEval

  /** What a rule that matches does with the packet. A meter only limits new connections. */
  function RuleVerdict(r: Rule, v6: bool, env: Env): Verdict {
    match r.action
    case Allow => Accept
    case Deny => Drop
    case Limit => if env.pkt.ct == CtNew && env.over(LimitSet(LimitText(r, v6))) then Refuse else Accept
    case _ => Refuse
  }

  /** The chains that the user rules rely on. */
  ghost predicate UserContext(P: Program, d: Direction, level: Level) {
    && P.chains(UserLimit) == UserLimitChain(level)
    && P.chains(UserLimitAccept) == [[Counter, Decide(Accept)]]
    && Quiet(P.chains(UserLogging(d)))
  }

  /** The log records a user logging chain wrote. */
  function UserLogs(d: Direction, logs: seq<(Chain, string)>): seq<(Chain, string)> {
    if logs == [] then []
    else
      UserLogs(d, logs[..|logs| - 1])
      + (if logs[|logs| - 1].0 == UserLogging(d) then [logs[|logs| - 1]] else [])
  }

  lemma UserLogsSnoc(d: Direction, logs: seq<(Chain, string)>, rec: (Chain, string))
    ensures UserLogs(d, logs + [rec]) == UserLogs(d, logs) + if rec.0 == UserLogging(d) then [rec] else []
  {
    assert (logs + [rec])[..|logs|] == logs;
  }

  /** The state in which the logging chain leaves the packet, if the rule is logged at all. */
  function AfterLogJump(env: Env, P: Program, r: Rule, st: St, depth: nat): St
    requires env.pkt.Valid() && depth > 0
  {
    if r.log == LogNone then st
    else match Eval(env, P, UserLogging(r.dir), P.chains(UserLogging(r.dir)), st, depth - 1)
      case Fell(st') => st'
      case _ => st
  }

  /** end differs from the state after the log jump by no user log record. */
  predicate LoggedOnly(env: Env, P: Program, r: Rule, st: St, depth: nat, end: St)
    requires env.pkt.Valid() && depth > 0
  {
    UserLogs(r.dir, end.logs) == UserLogs(r.dir, AfterLogJump(env, P, r, st, depth).logs)
  }

  const LIMIT_LOG: seq<Expr> := [RateLimit(3, 5), Log("[BFW LIMIT BLOCK] ")]

  /** The limit chain's log rule falls through, with at most its own record. */
  lemma ExecLimitLog(env: Env, sets: map<SetKey, SetBody>, st: St)
    requires env.pkt.Valid()
    ensures var f := Exec(env, sets, UserLimit, LIMIT_LOG, st, []);
      && !f.Act?
      && (f.st.logs == st.logs || f.st.logs == st.logs + [(UserLimit, "[BFW LIMIT BLOCK] ")])
  {
    ExecTwo(env, sets, UserLimit, RateLimit(3, 5), Log("[BFW LIMIT BLOCK] "), st, []);
  }

  lemma ForeignRecord(before: seq<(Chain, string)>, after: seq<(Chain, string)>, d: Direction)
    requires after == before || after == before + [(UserLimit, "[BFW LIMIT BLOCK] ")]
    ensures UserLogs(d, after) == UserLogs(d, before)
  {
    UserLogsSnoc(d, before, (UserLimit, "[BFW LIMIT BLOCK] "));
    assert UserLogs(d, before) + [] == UserLogs(d, before);
  }

  lemma LimitChainRefuses(env: Env, P: Program, level: Level, d: Direction, st: St, depth: nat) returns (st': St)
    requires env.pkt.Valid()
    ensures Eval(env, P, UserLimit, UserLimitChain(level), st, depth) == Decided(Refuse, st')
    ensures UserLogs(d, st'.logs) == UserLogs(d, st.logs)
  {
    var tail := [[Counter, Decide(Refuse)]];
    assert tail == [[Counter, Decide(Refuse)]] + [];
    st' := st;
    if level != Off {
      assert UserLimitChain(level) == [LIMIT_LOG] + tail;
      ExecLimitLog(env, P.sets, st);
      st' := Exec(env, P.sets, UserLimit, LIMIT_LOG, st, []).st;
      assert ([LIMIT_LOG] + tail)[1..] == tail;
      ForeignRecord(st.logs, st'.logs, d);
    } else {
      assert UserLimitChain(level) == tail;
    }
    EvalPlainVerdict(env, P, UserLimit, Refuse, [], st', depth);
  }

  // ---- one variant ----------------------------------------------------------------------

  /** The meter branch: loads of the key never break once the variant matched. */
  lemma TestsMeter(env: Env, sets: map<SetKey, SetBody>, r: Rule, proto: Proto, v6: bool)
    requires env.pkt.Valid() && env.pkt.v6 == v6
    requires proto != AnyProto ==> ProtoNumber(proto) == Some(env.pkt.l4)
    ensures Tests(env, sets, LimitKeyExprs(r, proto, v6) + [Dynset(LimitSet(LimitText(r, v6)))],
                  env.over(LimitSet(LimitText(r, v6))))
  {
    var key := LimitKeyExprs(r, proto, v6);
    var dyn := Dynset(LimitSet(LimitText(r, v6)));
    assert key + [dyn] == [key[0], key[1], dyn];
    forall here, st, reg ensures
      var f := Exec(env, sets, here, key + [dyn], st, reg);
      if env.over(LimitSet(LimitText(r, v6))) then f.Go? && f.st == st else f == Break(st)
    {
      ExecThree(env, sets, here, key[0], key[1], dyn, st, reg);
      var reg' := ExecOne(env, sets, here, key[0], st, reg).reg;
      ExecTwo(env, sets, here, key[1], dyn, st, reg');
    }
  }

  lemma TestsMeterRule(env: Env, sets: map<SetKey, SetBody>, r: Rule, proto: Proto, v6: bool, m: seq<Expr>, cond: bool)
    requires env.pkt.Valid() && Tests(env, sets, m, cond)
    requires cond ==> env.pkt.v6 == v6 && (proto != AnyProto ==> ProtoNumber(proto) == Some(env.pkt.l4))
    ensures Tests(env, sets, m + CtExprs(CT_NEW) + LimitKeyExprs(r, proto, v6) + [Dynset(LimitSet(LimitText(r, v6)))],
                  cond && env.pkt.ct == CtNew && env.over(LimitSet(LimitText(r, v6))))
  {
    var key := LimitSet(LimitText(r, v6));
    var tail := LimitKeyExprs(r, proto, v6) + [Dynset(key)];
    TestsCt(env, sets, CT_NEW);
    CtBits(env.pkt.ct);
    TestsConcat(env, sets, m, CtExprs(CT_NEW), cond, env.pkt.ct == CtNew);
    if cond {
      TestsMeter(env, sets, r, proto, v6);
    }
    TestsConcat(env, sets, m + CtExprs(CT_NEW), tail, cond && env.pkt.ct == CtNew, env.over(key));
    assert m + CtExprs(CT_NEW) + tail == m + CtExprs(CT_NEW) + LimitKeyExprs(r, proto, v6) + [Dynset(key)];
  }

  function MeterGuard(r: Rule, proto: Proto, v6: bool, m: seq<Expr>): seq<Expr> {
    m + CtExprs(CT_NEW) + LimitKeyExprs(r, proto, v6) + [Dynset(LimitSet(LimitText(r, v6)))]
  }

  lemma LimitShape(r: Rule, proto: Proto, v6: bool, m: seq<Expr>, rest: seq<seq<Expr>>)
    requires r.action == Limit
    ensures ActionRules(r, proto, v6, m) + rest
         == [MeterGuard(r, proto, v6, m) + [Counter, Jump(UserLimit)]] + ([m + [Counter, Jump(UserLimitAccept)]] + rest)
  {
    var x := m + CtExprs(CT_NEW) + LimitKeyExprs(r, proto, v6);
    var dyn := Dynset(LimitSet(LimitText(r, v6)));
    assert x + [dyn] + [Counter, Jump(UserLimit)] == x + [dyn, Counter, Jump(UserLimit)];
  }

  /** The second branch of a meter: accept whatever reaches it. */
  lemma EvalLimitAccept(env: Env, P: Program, here: Chain, m: seq<Expr>, cond: bool, rest: seq<seq<Expr>>, st: St, depth: nat)
    requires env.pkt.Valid() && Tests(env, P.sets, m, cond) && depth > 0
    requires P.chains(UserLimitAccept) == [[Counter, Decide(Accept)]]
    ensures Eval(env, P, here, [m + [Counter, Jump(UserLimitAccept)]] + rest, st, depth)
         == if cond then Decided(Accept, st) else Eval(env, P, here, rest, st, depth)
  {
    EvalJump(env, P, here, m, cond, UserLimitAccept, rest, st, depth);
    EvalPlainVerdict(env, P, UserLimitAccept, Accept, [], st, depth - 1);
    assert [[Counter, Decide(Accept)]] + [] == [[Counter, Decide(Accept)]];
  }

  lemma EvalLimit(env: Env, P: Program, r: Rule, proto: Proto, v6: bool, m: seq<Expr>, cond: bool, level: Level,
                  rest: seq<seq<Expr>>, st: St, depth: nat) returns (st': St)
    requires env.pkt.Valid() && Tests(env, P.sets, m, cond) && r.action == Limit && depth > 0
    requires cond ==> env.pkt.v6 == v6 && (proto != AnyProto ==> ProtoNumber(proto) == Some(env.pkt.l4))
    requires UserContext(P, r.dir, level)
    ensures Eval(env, P, User(r.dir), ActionRules(r, proto, v6, m) + rest, st, depth)
         == if cond then Decided(RuleVerdict(r, v6, env), st') else Eval(env, P, User(r.dir), rest, st, depth)
    ensures UserLogs(r.dir, st'.logs) == UserLogs(r.dir, st.logs)
  {
    var here := User(r.dir);
    var second := [m + [Counter, Jump(UserLimitAccept)]] + rest;
    var over := cond && env.pkt.ct == CtNew && env.over(LimitSet(LimitText(r, v6)));
    TestsMeterRule(env, P.sets, r, proto, v6, m, cond);
    LimitShape(r, proto, v6, m, rest);
    EvalJump(env, P, here, MeterGuard(r, proto, v6, m), over, UserLimit, second, st, depth);
    st' := st;
    if over {
      st' := LimitChainRefuses(env, P, level, r.dir, st, depth - 1);
    } else {
      EvalLimitAccept(env, P, here, m, cond, rest, st, depth);
    }
  }

  lemma EvalAction(env: Env, P: Program, r: Rule, proto: Proto, v6: bool, m: seq<Expr>, cond: bool, level: Level,
                   rest: seq<seq<Expr>>, st: St, depth: nat) returns (st': St)
    requires env.pkt.Valid() && Tests(env, P.sets, m, cond) && r.action != UnknownAction && depth > 0
    requires cond ==> env.pkt.v6 == v6 && (proto != AnyProto ==> ProtoNumber(proto) == Some(env.pkt.l4))
    requires UserContext(P, r.dir, level)
    ensures Eval(env, P, User(r.dir), ActionRules(r, proto, v6, m) + rest, st, depth)
         == if cond then Decided(RuleVerdict(r, v6, env), st') else Eval(env, P, User(r.dir), rest, st, depth)
    ensures UserLogs(r.dir, st'.logs) == UserLogs(r.dir, st.logs)
  {
    if r.action == Limit {
      st' := EvalLimit(env, P, r, proto, v6, m, cond, level, rest, st, depth);
    } else {
      EvalVerdict(env, P, User(r.dir), m, cond, RuleVerdict(r, v6, env), rest, st, depth);
      st' := st;
    }
  }

  lemma VariantShape(r: Rule, proto: Proto, v6: bool, a: Alloc, rest: seq<seq<Expr>>)
    ensures var m := MatchExprs(r, proto, v6, a);
      VariantRules(r, proto, v6, a, User(r.dir)) + rest
      == if r.log == LogNone then ActionRules(r, proto, v6, m) + rest
         else [m + [Counter, Jump(UserLogging(r.dir))]] + (ActionRules(r, proto, v6, m) + rest)
  {
  }

  /** The jump into the logging chain comes back with the records written there. */
  lemma EvalLogJump(env: Env, P: Program, r: Rule, m: seq<Expr>, cond: bool, level: Level,
                    actions: seq<seq<Expr>>, st: St, depth: nat)
    requires env.pkt.Valid() && depth > 0 && r.log != LogNone
    requires Tests(env, P.sets, m, cond) && UserContext(P, r.dir, level)
    ensures Eval(env, P, User(r.dir), [m + [Counter, Jump(UserLogging(r.dir))]] + actions, st, depth)
         == Eval(env, P, User(r.dir), actions, if cond then AfterLogJump(env, P, r, st, depth) else st, depth)
  {
    var lc := UserLogging(r.dir);
    EvalJump(env, P, User(r.dir), m, cond, lc, actions, st, depth);
    EvalQuiet(env, P, lc, P.chains(lc), st, depth - 1);
  }

  /** One variant: log if asked to, then decide; or nothing at all when it does not match. */
  lemma EvalVariant(env: Env, P: Program, r: Rule, proto: Proto, v6: bool, a: Alloc, cond: bool, level: Level,
                    rest: seq<seq<Expr>>, st: St, depth: nat) returns (st': St)
    requires env.pkt.Valid() && r.action != UnknownAction && depth > 0
    requires Tests(env, P.sets, MatchExprs(r, proto, v6, a), cond)
    requires cond ==> env.pkt.v6 == v6 && (proto != AnyProto ==> ProtoNumber(proto) == Some(env.pkt.l4))
    requires UserContext(P, r.dir, level)
    ensures Eval(env, P, User(r.dir), VariantRules(r, proto, v6, a, User(r.dir)) + rest, st, depth)
         == if cond then Decided(RuleVerdict(r, v6, env), st') else Eval(env, P, User(r.dir), rest, st, depth)
    ensures cond ==> LoggedOnly(env, P, r, st, depth, st')
  {
    var m := MatchExprs(r, proto, v6, a);
    VariantShape(r, proto, v6, a, rest);
    var st1 := if cond then AfterLogJump(env, P, r, st, depth) else st;
    if r.log != LogNone {
      EvalLogJump(env, P, r, m, cond, level, ActionRules(r, proto, v6, m) + rest, st, depth);
    }
    st' := EvalAction(env, P, r, proto, v6, m, cond, level, rest, st1, depth);
  }

  // ---- sets only grow -----------------------------------------------------------------------

  /** Every set of a is still there in b, unchanged, and ids are not reused. */
  ghost predicate Grows(a: Alloc, b: Alloc) {
    && a.next <= b.next
    && (forall k :: k in a.sets ==> k in b.sets && b.sets[k] == a.sets[k])
  }

  /** Anonymous ids present in the table have been handed out. */
  ghost predicate IdsUsed(a: Alloc) {
    forall k :: k in a.sets && k.AnonSet? ==> k.id <= a.next
  }

  lemma PortAllocGrows(ports: seq<PortRange>, tcp: bool, a: Alloc)
    requires IdsUsed(a)
    ensures Grows(a, PortAlloc(ports, tcp, a)) && IdsUsed(PortAlloc(ports, tcp, a))
    ensures PortSetPresent(PortAlloc(ports, tcp, a).sets, ports, tcp, a)
  {
  }

  lemma VariantAllocGrows(r: Rule, proto: Proto, v6: bool, a: Alloc)
    requires IdsUsed(a)
    ensures Grows(a, VariantAlloc(r, proto, v6, a)) && IdsUsed(VariantAlloc(r, proto, v6, a))
    ensures PortSetsPresent(VariantAlloc(r, proto, v6, a).sets, r, proto, a)
  {
    if TakesPorts(proto) {
      PortAllocGrows(r.src.ports, proto == Tcp, a);
      PortAllocGrows(r.dst.ports, proto == Tcp, PortAlloc(r.src.ports, proto == Tcp, a));
    }
  }

  lemma RuleAllocGrows(r: Rule, v6: bool, now: int, a: Alloc)
    requires IdsUsed(a)
    ensures Grows(a, RuleAlloc(r, v6, now, a)) && IdsUsed(RuleAlloc(r, v6, now, a))
  {
    var v := Variants(r);
    VariantAllocGrows(r, v[0], v6, a);
    if |v| == 2 {
      VariantAllocGrows(r, v[1], v6, VariantAlloc(r, v[0], v6, a));
    }
  }

  lemma {:induction false} ListAllocGrows(rules: seq<Rule>, v6: bool, now: int, a: Alloc)
    requires IdsUsed(a)
    ensures Grows(a, ListAlloc(rules, v6, now, a)) && IdsUsed(ListAlloc(rules, v6, now, a))
  {
    if rules != [] {
      RuleAllocGrows(rules[0], v6, now, a);
      ListAllocGrows(rules[1..], v6, now, RuleAlloc(rules[0], v6, now, a));
    }
  }

  lemma PresentLater(sets: map<SetKey, SetBody>, b: Alloc, r: Rule, proto: Proto, a: Alloc)
    requires PortSetsPresent(b.sets, r, proto, a)
    requires forall k :: k in b.sets ==> k in sets && sets[k] == b.sets[k]
    ensures PortSetsPresent(sets, r, proto, a)
  {
  }

  // ---- one rule --------------------------------------------------------------------------------

  ghost predicate Holds(sets: map<SetKey, SetBody>, b: Alloc) {
    forall k :: k in b.sets ==> k in sets && sets[k] == b.sets[k]
  }

  lemma EvalRuleVariant(env: Env, P: Program, r: Rule, proto: Proto, v6: bool, a: Alloc, level: Level,
                        rest: seq<seq<Expr>>, st: St, depth: nat) returns (st': St)
    requires env.pkt.Valid() && r.ValidAddrs() && Encodable(r) && r.action != UnknownAction && depth > 0
    requires !MatchFails(r, proto, v6) && IdsUsed(a) && Holds(P.sets, VariantAlloc(r, proto, v6, a))
    requires UserContext(P, r.dir, level)
    ensures Eval(env, P, User(r.dir), VariantRules(r, proto, v6, a, User(r.dir)) + rest, st, depth)
         == if VariantMatches(r, proto, v6, CompiledSets(P.sets), env.pkt) then Decided(RuleVerdict(r, v6, env), st')
            else Eval(env, P, User(r.dir), rest, st, depth)
    ensures VariantMatches(r, proto, v6, CompiledSets(P.sets), env.pkt) ==> LoggedOnly(env, P, r, st, depth, st')
  {
    VariantAllocGrows(r, proto, v6, a);
    PresentLater(P.sets, VariantAlloc(r, proto, v6, a), r, proto, a);
    TestsMatch(env, P.sets, r, proto, v6, a);
    st' := EvalVariant(env, P, r, proto, v6, a, VariantMatches(r, proto, v6, CompiledSets(P.sets), env.pkt),
                       level, rest, st, depth);
  }

  /** A rule leaves nothing in the chains of other directions, and nothing when inactive. */
  lemma NoBlock(r: Rule, v6: bool, now: int, a: Alloc, d: Direction, c: Chain, rest: seq<seq<Expr>>)
    requires (c == User(d) || c == UserLogging(d)) && (!r.Active(now) || r.dir != d)
    ensures RuleRules(r, v6, now, a, c) + rest == rest
  {
    assert RuleRules(r, v6, now, a, c) == [];
  }

  lemma OneBlock(r: Rule, v6: bool, now: int, a: Alloc, c: Chain, rest: seq<seq<Expr>>)
    requires r.Active(now) && |Variants(r)| == 1
    ensures RuleRules(r, v6, now, a, c) + rest == VariantRules(r, Variants(r)[0], v6, a, c) + rest
  {
    assert VariantRules(r, Variants(r)[0], v6, a, c) + [] == VariantRules(r, Variants(r)[0], v6, a, c);
  }

  lemma TwoBlocks(r: Rule, v6: bool, now: int, a: Alloc, c: Chain, rest: seq<seq<Expr>>)
    requires r.Active(now) && |Variants(r)| == 2
    ensures var v := Variants(r);
      RuleRules(r, v6, now, a, c) + rest
      == VariantRules(r, v[0], v6, a, c) + (VariantRules(r, v[1], v6, VariantAlloc(r, v[0], v6, a), c) + rest)
  {
    var v := Variants(r);
    Assoc(VariantRules(r, v[0], v6, a, c), VariantRules(r, v[1], v6, VariantAlloc(r, v[0], v6, a), c), rest);
  }

  lemma Assoc(a: seq<seq<Expr>>, b: seq<seq<Expr>>, c: seq<seq<Expr>>)
    ensures a + b + c == a + (b + c)
  {
  }

  /** The two passes of a rule one after the other. */
  lemma EvalTwoVariants(env: Env, P: Program, r: Rule, v6: bool, a: Alloc, level: Level,
                        rest: seq<seq<Expr>>, st: St, depth: nat) returns (st': St)
    requires env.pkt.Valid() && r.ValidAddrs() && Encodable(r) && r.action != UnknownAction && depth > 0
    requires |Variants(r)| == 2 && !MatchFails(r, Variants(r)[0], v6) && !MatchFails(r, Variants(r)[1], v6)
    requires IdsUsed(a) && Holds(P.sets, VariantAlloc(r, Variants(r)[1], v6, VariantAlloc(r, Variants(r)[0], v6, a)))
    requires UserContext(P, r.dir, level)
    ensures var v, fn := Variants(r), CompiledSets(P.sets);
      Eval(env, P, User(r.dir), VariantRules(r, v[0], v6, a, User(r.dir))
           + (VariantRules(r, v[1], v6, VariantAlloc(r, v[0], v6, a), User(r.dir)) + rest), st, depth)
      == if VariantMatches(r, v[0], v6, fn, env.pkt) || VariantMatches(r, v[1], v6, fn, env.pkt)
         then Decided(RuleVerdict(r, v6, env), st') else Eval(env, P, User(r.dir), rest, st, depth)
    ensures var v, fn := Variants(r), CompiledSets(P.sets);
      VariantMatches(r, v[0], v6, fn, env.pkt) || VariantMatches(r, v[1], v6, fn, env.pkt) ==> LoggedOnly(env, P, r, st, depth, st')
  {
    var v := Variants(r);
    var a1 := VariantAlloc(r, v[0], v6, a);
    VariantAllocGrows(r, v[0], v6, a);
    VariantAllocGrows(r, v[1], v6, a1);
    var rest1 := VariantRules(r, v[1], v6, a1, User(r.dir)) + rest;
    st' := EvalRuleVariant(env, P, r, v[0], v6, a, level, rest1, st, depth);
    if !VariantMatches(r, v[0], v6, CompiledSets(P.sets), env.pkt) {
      st' := EvalRuleVariant(env, P, r, v[1], v6, a1, level, rest, st, depth);
    }
  }

  /** A rule's block decides the packet iff the rule hits, and otherwise leaves no trace. */
  lemma EvalRule(env: Env, P: Program, r: Rule, v6: bool, now: int, d: Direction, a: Alloc, level: Level,
                 rest: seq<seq<Expr>>, st: St, depth: nat) returns (st': St)
    requires env.pkt.Valid() && r.ValidAddrs() && Encodable(r) && depth > 0
    requires !RuleFails(r, v6, now) && IdsUsed(a) && Holds(P.sets, RuleAlloc(r, v6, now, a))
    requires UserContext(P, d, level)
    ensures Eval(env, P, User(d), RuleRules(r, v6, now, a, User(d)) + rest, st, depth)
         == if Hits(r, v6, d, now, CompiledSets(P.sets), env.pkt) then Decided(RuleVerdict(r, v6, env), st')
            else Eval(env, P, User(d), rest, st, depth)
    ensures Hits(r, v6, d, now, CompiledSets(P.sets), env.pkt) ==> LoggedOnly(env, P, r, st, depth, st')
  {
    st' := st;
    if r.Active(now) && r.dir == d {
      var v := Variants(r);
      assert !MatchFails(r, v[0], v6);
      VariantsExact(r, v6, CompiledSets(P.sets), env.pkt);
      if |v| == 1 {
        OneBlock(r, v6, now, a, User(d), rest);
        st' := EvalRuleVariant(env, P, r, v[0], v6, a, level, rest, st, depth);
      } else {
        assert !MatchFails(r, v[1], v6);
        TwoBlocks(r, v6, now, a, User(d), rest);
        st' := EvalTwoVariants(env, P, r, v6, a, level, rest, st, depth);
      }
    } else {
      NoBlock(r, v6, now, a, d, User(d), rest);
    }
  }

  lemma ListShape(rules: seq<Rule>, v6: bool, now: int, a: Alloc, c: Chain, rest: seq<seq<Expr>>)
    requires rules != []
    ensures ListRules(rules, v6, now, a, c) + rest
         == RuleRules(rules[0], v6, now, a, c)
            + (ListRules(rules[1..], v6, now, RuleAlloc(rules[0], v6, now, a), c) + rest)
  {
    Assoc(RuleRules(rules[0], v6, now, a, c), ListRules(rules[1..], v6, now, RuleAlloc(rules[0], v6, now, a), c), rest);
  }

  /** What compiling a list successfully guarantees about the program it ends up in. */
  ghost predicate Ready(sets: map<SetKey, SetBody>, rules: seq<Rule>, v6: bool, now: int, a: Alloc) {
    && ValidRules(rules) && (forall i :: 0 <= i < |rules| ==> Encodable(rules[i]))
    && !ListFails(rules, v6, now) && IdsUsed(a) && Holds(sets, ListAlloc(rules, v6, now, a))
  }

  lemma ReadyParts(sets: map<SetKey, SetBody>, rules: seq<Rule>, v6: bool, now: int, a: Alloc)
    requires rules != [] && Ready(sets, rules, v6, now, a)
    ensures var a1 := RuleAlloc(rules[0], v6, now, a);
      && rules[0].ValidAddrs() && Encodable(rules[0]) && !RuleFails(rules[0], v6, now)
      && Holds(sets, a1) && Ready(sets, rules[1..], v6, now, a1)
  {
    assert forall i :: 0 <= i < |rules[1..]| ==> rules[1..][i] == rules[i + 1];
    RuleAllocGrows(rules[0], v6, now, a);
    ListAllocGrows(rules[1..], v6, now, RuleAlloc(rules[0], v6, now, a));
  }

  /** A family list: the first hit decides. */
  lemma {:induction false} EvalList(env: Env, P: Program, rules: seq<Rule>, v6: bool, now: int, d: Direction, a: Alloc,
                                    level: Level, rest: seq<seq<Expr>>, st: St, depth: nat) returns (st': St)
    requires env.pkt.Valid() && depth > 0 && Ready(P.sets, rules, v6, now, a)
    requires UserContext(P, d, level)
    ensures var k := FirstHit(rules, v6, d, now, CompiledSets(P.sets), env.pkt);
      Eval(env, P, User(d), ListRules(rules, v6, now, a, User(d)) + rest, st, depth)
      == if k.Some? then Decided(RuleVerdict(rules[k.value], v6, env), st')
         else Eval(env, P, User(d), rest, st, depth)
    ensures var k := FirstHit(rules, v6, d, now, CompiledSets(P.sets), env.pkt);
      k.Some? ==> LoggedOnly(env, P, rules[k.value], st, depth, st')
  {
    st' := st;
    if rules == [] {
      assert ListRules(rules, v6, now, a, User(d)) + rest == rest;
    } else {
      var a1 := RuleAlloc(rules[0], v6, now, a);
      var rest1 := ListRules(rules[1..], v6, now, a1, User(d)) + rest;
      ReadyParts(P.sets, rules, v6, now, a);
      ListShape(rules, v6, now, a, User(d), rest);
      st' := EvalRule(env, P, rules[0], v6, now, d, a, level, rest1, st, depth);
      FirstHitStep(rules, v6, d, now, CompiledSets(P.sets), env.pkt);
      if !Hits(rules[0], v6, d, now, CompiledSets(P.sets), env.pkt) {
        st' := EvalList(env, P, rules[1..], v6, now, d, a1, level, rest, st, depth);
      }
    }
  }

  lemma ValidTail(rules: seq<Rule>)
    requires rules != [] && ValidRules(rules)
    ensures ValidRules(rules[1..])
  {
    assert forall i :: 0 <= i < |rules[1..]| ==> rules[1..][i] == rules[i + 1];
  }

  lemma FirstHitStep(rules: seq<Rule>, v6: bool, d: Direction, now: int, sets: SetFn, p: Packet)
    requires rules != [] && ValidRules(rules)
    ensures ValidRules(rules[1..])
    ensures var k, t := FirstHit(rules, v6, d, now, sets, p), FirstHit(rules[1..], v6, d, now, sets, p);
      if Hits(rules[0], v6, d, now, sets, p) then k == Some(0)
      else if t.Some? then k == Some(t.value + 1) && rules[k.value] == rules[1..][t.value]
      else k == None
  {
    ValidTail(rules);
  }

  // ---- both family lists ---------------------------------------------------------------------

  /** The first active matching rule in the list of the packet's family. */
  function Deciding(r4: seq<Rule>, r6: seq<Rule>, now: int, d: Direction, sets: SetFn, p: Packet): (r: Option<Rule>)
    requires ValidRules(r4) && ValidRules(r6)
    ensures r.Some? ==> r.value.dir == d && r.value.ValidAddrs()
  {
    var rules := if p.v6 then r6 else r4;
    match FirstHit(rules, p.v6, d, now, sets, p)
    case Some(k) => Some(rules[k])
    case None => None
  }

  /** A packet hits no rule of the other family's list. */
  lemma OtherFamily(rules: seq<Rule>, v6: bool, d: Direction, now: int, sets: SetFn, p: Packet)
    requires ValidRules(rules) && p.v6 != v6
    ensures FirstHit(rules, v6, d, now, sets, p).None?
  {
  }

  ghost predicate ReadyBoth(sets: map<SetKey, SetBody>, r4: seq<Rule>, r6: seq<Rule>, now: int, a: Alloc) {
    Ready(sets, r4, false, now, a) && Ready(sets, r6, true, now, ListAlloc(r4, false, now, a))
  }

  /** A user chain decides as the deciding rule does, and otherwise leaves no trace. */
  lemma EvalBoth(env: Env, P: Program, r4: seq<Rule>, r6: seq<Rule>, now: int, d: Direction, a: Alloc,
                 level: Level, st: St, depth: nat) returns (st': St)
    requires env.pkt.Valid() && depth > 0 && ReadyBoth(P.sets, r4, r6, now, a) && UserContext(P, d, level)
    ensures Eval(env, P, User(d), BothRules(r4, r6, now, a, User(d)), st, depth)
         == match Deciding(r4, r6, now, d, CompiledSets(P.sets), env.pkt)
            case Some(r) => Decided(RuleVerdict(r, env.pkt.v6, env), st')
            case None => Fell(st)
    ensures var r := Deciding(r4, r6, now, d, CompiledSets(P.sets), env.pkt);
      r.Some? ==> LoggedOnly(env, P, r.value, st, depth, st')
  {
    var rest := ListRules(r6, true, now, ListAlloc(r4, false, now, a), User(d));
    st' := EvalList(env, P, r4, false, now, d, a, level, rest, st, depth);
    if env.pkt.v6 {
      OtherFamily(r4, false, d, now, CompiledSets(P.sets), env.pkt);
    }
    var k := FirstHit(r4, false, d, now, CompiledSets(P.sets), env.pkt);
    if k.None? {
      st' := EvalSecond(env, P, r6, now, d, ListAlloc(r4, false, now, a), level, st, depth);
    }
  }

  lemma EvalSecond(env: Env, P: Program, r6: seq<Rule>, now: int, d: Direction, a: Alloc,
                   level: Level, st: St, depth: nat) returns (st': St)
    requires env.pkt.Valid() && depth > 0 && Ready(P.sets, r6, true, now, a) && UserContext(P, d, level)
    ensures var k := FirstHit(r6, true, d, now, CompiledSets(P.sets), env.pkt);
      && Eval(env, P, User(d), ListRules(r6, true, now, a, User(d)), st, depth)
         == (if k.Some? then Decided(RuleVerdict(r6[k.value], true, env), st') else Fell(st))
      && (k.Some? ==> env.pkt.v6 && LoggedOnly(env, P, r6[k.value], st, depth, st'))
  {
    st' := EvalList(env, P, r6, true, now, d, a, level, [], st, depth);
    assert ListRules(r6, true, now, a, User(d)) + [] == ListRules(r6, true, now, a, User(d));
  }

  // ---- the logging chains stay quiet --------------------------------------------------------------

  lemma {:induction false} QuietAppend(m: seq<Expr>, tail: seq<Expr>)
    requires QuietRule(m) && QuietRule(tail)
    ensures QuietRule(m + tail)
  {
  }

  lemma QuietMatch(r: Rule, proto: Proto, v6: bool, a: Alloc)
    ensures QuietRule(MatchExprs(r, proto, v6, a))
  {
    var e1 := FamilyExprs(v6);
    var e2 := e1 + IfacePairExprs(r);
    var e3 := e2 + ProtoExprs(r, proto);
    var e4 := e3 + EndpointExprs(r.src, false, v6);
    var e5 := e4 + EndpointExprs(r.dst, true, v6);
    QuietParts(r, proto, v6, a);
    QuietAppend(e1, IfacePairExprs(r));
    QuietAppend(e2, ProtoExprs(r, proto));
    QuietAppend(e3, EndpointExprs(r.src, false, v6));
    QuietAppend(e4, EndpointExprs(r.dst, true, v6));
    QuietAppend(e5, PortPairExprs(r, proto, a));
  }

  lemma QuietParts(r: Rule, proto: Proto, v6: bool, a: Alloc)
    ensures QuietRule(IfacePairExprs(r)) && QuietRule(ProtoExprs(r, proto)) && QuietRule(PortPairExprs(r, proto, a))
    ensures QuietRule(EndpointExprs(r.src, false, v6)) && QuietRule(EndpointExprs(r.dst, true, v6))
  {
    var x1 := if r.ifaceIn != [] then IfaceExprs(true, Truncate16(r.ifaceIn)) else [];
    var x2 := if r.ifaceOut != [] then IfaceExprs(false, Truncate16(r.ifaceOut)) else [];
    assert QuietRule(x1) && QuietRule(x2);
    QuietAppend(x1, x2);
    QuietPorts(r, proto, a);
  }

  lemma QuietPorts(r: Rule, proto: Proto, a: Alloc)
    ensures QuietRule(ProtoExprs(r, proto)) && QuietRule(PortPairExprs(r, proto, a))
  {
    if TakesPorts(proto) {
      QuietAppend(PortExprs(r.src.ports, proto == Tcp, false, a),
                  PortExprs(r.dst.ports, proto == Tcp, true, PortAlloc(r.src.ports, proto == Tcp, a)));
    }
  }

  lemma QuietVariant(r: Rule, proto: Proto, v6: bool, a: Alloc, d: Direction)
    ensures Quiet(VariantRules(r, proto, v6, a, UserLogging(d)))
  {
    var m := MatchExprs(r, proto, v6, a);
    QuietMatch(r, proto, v6, a);
    assert QuietRule(NewOnly(r));
    QuietAppend(m, NewOnly(r));
    assert QuietRule([LIMIT3, Log(LogPrefix(r.action))]) && QuietRule([Counter, Return]);
    QuietAppend(m + NewOnly(r), [LIMIT3, Log(LogPrefix(r.action))]);
    QuietAppend(m + NewOnly(r), [Counter, Return]);
  }

  lemma QuietRuleBlock(r: Rule, v6: bool, now: int, a: Alloc, d: Direction)
    ensures Quiet(RuleRules(r, v6, now, a, UserLogging(d)))
  {
    if r.Active(now) {
      var v := Variants(r);
      QuietVariant(r, v[0], v6, a, d);
      if |v| == 2 {
        QuietVariant(r, v[1], v6, VariantAlloc(r, v[0], v6, a), d);
      }
    }
  }

  lemma {:induction false} QuietList(rules: seq<Rule>, v6: bool, now: int, a: Alloc, d: Direction)
    ensures Quiet(ListRules(rules, v6, now, a, UserLogging(d)))
  {
    if rules != [] {
      QuietRuleBlock(rules[0], v6, now, a, d);
      QuietList(rules[1..], v6, now, RuleAlloc(rules[0], v6, now, a), d);
      QuietConcat(RuleRules(rules[0], v6, now, a, UserLogging(d)),
                  ListRules(rules[1..], v6, now, RuleAlloc(rules[0], v6, now, a), UserLogging(d)));
    }
  }
}
