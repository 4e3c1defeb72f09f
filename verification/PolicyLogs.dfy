/** What the logging chains write: which packets, at which level, under which prefix, and how often. */
module PolicyLogs {
  import opened Bytes
  import opened Cidr
  import opened Intervals
  import opened Rules
  import opened Nft
  import opened Store
  import opened Compile
  import opened CompileMatch
  import opened ChainEval

  /** One record of a chain, as often as three a minute allow after a burst of ten. */
  function Paced(env: Env, here: Chain, prefix: string, s: St): St {
    St(s.tick + 1, s.logs + if env.rate(s.tick) then [(here, prefix)] else [])
  }

  function Always(here: Chain, prefix: string, s: St): St {
    s.(logs := s.logs + [(here, prefix)])
  }

  /** The two log statements there are. */
  function LogTail(paced: bool, prefix: string): seq<Expr> {
    if paced then [RateLimit(3, 10), Log(prefix)] else [Log(prefix)]
  }

  lemma ExecLogTail(env: Env, sets: map<SetKey, SetBody>, here: Chain, paced: bool, prefix: string, s: St, reg: seq<Byte>)
    requires env.pkt.Valid()
    ensures var f := Exec(env, sets, here, LogTail(paced, prefix), s, reg);
      !f.Act? && f.st == if paced then Paced(env, here, prefix, s) else Always(here, prefix, s)
  {
    if paced {
      ExecTwo(env, sets, here, RateLimit(3, 10), Log(prefix), s, reg);
      assert s.logs + [] == s.logs;
    } else {
      assert [Log(prefix)][1..] == [];
    }
  }

  /** A guarded log rule records what passes its guard and never decides. */
  lemma EvalLogRule(env: Env, P: Program, here: Chain, m: seq<Expr>, cond: bool, paced: bool, prefix: string,
                    rest: seq<seq<Expr>>, s: St, depth: nat)
    requires env.pkt.Valid() && Tests(env, P.sets, m, cond)
    ensures Eval(env, P, here, [m + LogTail(paced, prefix)] + rest, s, depth)
      == Eval(env, P, here, rest, if !cond then s else if paced then Paced(env, here, prefix, s) else Always(here, prefix, s), depth)
  {
    var tail := LogTail(paced, prefix);
    ExecGuarded(env, P.sets, here, m, cond, tail, s);
    assert ([m + tail] + rest)[1..] == rest;
    if cond {
      var reg :| Exec(env, P.sets, here, m + tail, s, []) == Exec(env, P.sets, here, tail, s, reg);
      ExecLogTail(env, P.sets, here, paced, prefix, s, reg);
    }
  }

  lemma OnlyLogRule(env: Env, P: Program, here: Chain, paced: bool, prefix: string, s: St, depth: nat)
    requires env.pkt.Valid()
    ensures Eval(env, P, here, [LogTail(paced, prefix)], s, depth)
      == Fell(if paced then Paced(env, here, prefix, s) else Always(here, prefix, s))
  {
    TestsNone(env, P.sets);
    assert [] + LogTail(paced, prefix) == LogTail(paced, prefix);
    assert [LogTail(paced, prefix)] + [] == [LogTail(paced, prefix)];
    EvalLogRule(env, P, here, [], true, paced, prefix, [], s, depth);
  }

  /** Packets that no user rule decides: blocked ones are logged at every level but off, allowed ones
      above low, and only high and full log without a limit. */
  lemma PolicyLogged(env: Env, P: Program, d: Direction, level: Level, policy: PolicyWord, s: St, depth: nat)
    requires env.pkt.Valid()
    ensures var here := AfterLogging(d);
      var blocks := policy == PolicyDeny || policy == PolicyReject;
      Eval(env, P, here, AfterLoggingChain(level, policy), s, depth)
      == Fell(
        if level == Off || (level == Low && !blocks) then s
        else
          var prefix := if blocks then "[BFW BLOCK] " else "[BFW ALLOW] ";
          if level == High || level == Full then Always(here, prefix, s) else Paced(env, here, prefix, s))
  {
    var here := AfterLogging(d);
    OnlyLogRule(env, P, here, true, "[BFW BLOCK] ", s, depth);
    OnlyLogRule(env, P, here, false, "[BFW BLOCK] ", s, depth);
    OnlyLogRule(env, P, here, true, "[BFW ALLOW] ", s, depth);
    OnlyLogRule(env, P, here, false, "[BFW ALLOW] ", s, depth);
  }

  /** The audit in front of all rules: NEW packets at medium, every packet from high on, and
      without a limit above high. */
  lemma AuditLogged(env: Env, P: Program, d: Direction, level: Level, s: St, depth: nat)
    requires env.pkt.Valid()
    ensures var here := BeforeLogging(d);
      Eval(env, P, here, BeforeLoggingChain(level), s, depth)
      == Fell(
        if level == Off || level == Low || (level == Medium && env.pkt.ct != CtNew) then s
        else if level == Medium || level == High then Paced(env, here, "[BFW AUDIT] ", s)
        else Always(here, "[BFW AUDIT] ", s))
  {
    var here := BeforeLogging(d);
    TestsCt(env, P.sets, CT_NEW);
    CtBits(env.pkt.ct);
    var rule := CtExprs(CT_NEW) + LogTail(true, "[BFW AUDIT] ");
    assert [rule] + [] == [rule];
    EvalLogRule(env, P, here, CtExprs(CT_NEW), env.pkt.ct == CtNew, true, "[BFW AUDIT] ", [], s, depth);
    OnlyLogRule(env, P, here, true, "[BFW AUDIT] ", s, depth);
    OnlyLogRule(env, P, here, false, "[BFW AUDIT] ", s, depth);
  }

  /** Packets that the fixed rules drop: an invalid one is recorded as such above low and skipped
      at low while the limiter lets it, and the rest is recorded as blocked. */
  lemma DenyLogged(env: Env, P: Program, level: Level, s: St, depth: nat)
    requires env.pkt.Valid() && level != Low
    ensures Eval(env, P, LogDeny, LogDenyChain(level), s, depth)
      == Fell(
        if level == Off then s
        else
          var paced := level != High && level != Full;
          var s1 := if env.pkt.ct != CtInvalid then s
                    else if paced then Paced(env, LogDeny, "[BFW AUDIT INVALID] ", s)
                    else Always(LogDeny, "[BFW AUDIT INVALID] ", s);
          if paced then Paced(env, LogDeny, "[BFW BLOCK] ", s1) else Always(LogDeny, "[BFW BLOCK] ", s1))
  {
    if level != Off {
      var paced := level != High && level != Full;
      TestsCt(env, P.sets, CT_INVALID);
      CtBits(env.pkt.ct);
      var first, second := CtExprs(CT_INVALID) + LogTail(paced, "[BFW AUDIT INVALID] "), LogTail(paced, "[BFW BLOCK] ");
      assert [first, second] == [first] + [second];
      EvalLogRule(env, P, LogDeny, CtExprs(CT_INVALID), env.pkt.ct == CtInvalid, paced, "[BFW AUDIT INVALID] ", [second], s, depth);
      var s1 := if env.pkt.ct != CtInvalid then s
                else if paced then Paced(env, LogDeny, "[BFW AUDIT INVALID] ", s)
                else Always(LogDeny, "[BFW AUDIT INVALID] ", s);
      OnlyLogRule(env, P, LogDeny, paced, "[BFW BLOCK] ", s1, depth);
    }
  }

  /** The chain for what is allowed leaves a record at every level but off. */
  lemma AllowLogged(env: Env, P: Program, level: Level, s: St, depth: nat)
    requires env.pkt.Valid()
    ensures Eval(env, P, LogAllow, LogAllowChain(level), s, depth)
      == Fell(
        if level == Off then s
        else if level == High || level == Full then Always(LogAllow, "[BFW ALLOW] ", s)
        else Paced(env, LogAllow, "[BFW ALLOW] ", s))
  {
    OnlyLogRule(env, P, LogAllow, true, "[BFW ALLOW] ", s, depth);
    OnlyLogRule(env, P, LogAllow, false, "[BFW ALLOW] ", s, depth);
  }

  /** A guard and a limiter in front of a return. */
  lemma ExecPacedReturn(env: Env, sets: map<SetKey, SetBody>, here: Chain, s: St, reg: seq<Byte>)
    requires env.pkt.Valid()
    ensures Exec(env, sets, here, [RateLimit(3, 10), Counter, Return], s, reg)
      == if env.rate(s.tick) then Act(Back, s.(tick := s.tick + 1)) else Break(s.(tick := s.tick + 1))
  {
    var es := [RateLimit(3, 10), Counter, Return];
    assert es[1..] == [Counter, Return];
    ExecAct(env, sets, here, Return, s.(tick := s.tick + 1), reg);
  }

  /** At low an invalid packet within the limit leaves no record; any other leaves a blocked one. */
  lemma DenyLoggedLow(env: Env, P: Program, s: St, depth: nat)
    requires env.pkt.Valid()
    ensures Eval(env, P, LogDeny, LogDenyChain(Low), s, depth)
      == Fell(
        if env.pkt.ct != CtInvalid then Paced(env, LogDeny, "[BFW BLOCK] ", s)
        else if env.rate(s.tick) then s.(tick := s.tick + 1)
        else Paced(env, LogDeny, "[BFW BLOCK] ", s.(tick := s.tick + 1)))
  {
    var tail, block := [RateLimit(3, 10), Counter, Return], LogTail(true, "[BFW BLOCK] ");
    var cond := env.pkt.ct == CtInvalid;
    TestsCt(env, P.sets, CT_INVALID);
    CtBits(env.pkt.ct);
    ExecGuarded(env, P.sets, LogDeny, CtExprs(CT_INVALID), cond, tail, s);
    var rules := LogDenyChain(Low);
    assert rules == [CtExprs(CT_INVALID) + tail, block] && rules[1..] == [block];
    OnlyLogRule(env, P, LogDeny, true, "[BFW BLOCK] ", s, depth);
    OnlyLogRule(env, P, LogDeny, true, "[BFW BLOCK] ", s.(tick := s.tick + 1), depth);
    if cond {
      var reg :| Exec(env, P.sets, LogDeny, CtExprs(CT_INVALID) + tail, s, []) == Exec(env, P.sets, LogDeny, tail, s, reg);
      ExecPacedReturn(env, P.sets, LogDeny, s, reg);
    }
  }

  /** A connection over a rule's limit is logged, three a minute after a burst of five, unless
      logging is off, and refused. */
  lemma LimitLogged(env: Env, P: Program, level: Level, s: St, depth: nat)
    requires env.pkt.Valid()
    ensures Eval(env, P, UserLimit, UserLimitChain(level), s, depth)
      == Decided(Refuse, if level == Off then s else Paced(env, UserLimit, "[BFW LIMIT BLOCK] ", s))
    ensures level != Off ==> UserLimitChain(level)[0] == [RateLimit(3, 5), Log("[BFW LIMIT BLOCK] ")]
  {
    var refuse := [[Counter, Decide(Refuse)]];
    var log := [RateLimit(3, 5), Log("[BFW LIMIT BLOCK] ")];
    var s1 := if level == Off then s else Paced(env, UserLimit, "[BFW LIMIT BLOCK] ", s);
    RefuseAll(env, P, s1, depth);
    if level != Off {
      assert UserLimitChain(level) == [log] + refuse && ([log] + refuse)[1..] == refuse;
      ExecTwo(env, P.sets, UserLimit, log[0], log[1], s, []);
      assert s.logs + [] == s.logs;
    } else {
      assert UserLimitChain(level) == [] + refuse == refuse;
    }
  }

  lemma RefuseAll(env: Env, P: Program, s: St, depth: nat)
    requires env.pkt.Valid()
    ensures Eval(env, P, UserLimit, [[Counter, Decide(Refuse)]], s, depth) == Decided(Refuse, s)
  {
    TestsNone(env, P.sets);
    assert [] + [Counter, Decide(Refuse)] == [Counter, Decide(Refuse)];
    assert [[Counter, Decide(Refuse)]] + [] == [[Counter, Decide(Refuse)]];
    EvalVerdict(env, P, UserLimit, [], true, Refuse, [], s, depth);
  }

  /** The prefix of a rule's own record, and how often it is written. */
  lemma UserRecord(r: Rule, m: seq<Expr>)
    requires r.log != LogNone
    ensures var guard := if r.log == LogNew then m + CtExprs(8) else m;
      LogEntries(r, m)[0] == guard + LogTail(true,
        match r.action
        case Allow => "[BFW ALLOW] "
        case Limit => "[BFW LIMIT] "
        case Deny => "[BFW BLOCK] "
        case Reject => "[BFW BLOCK] "
        case UnknownAction => "[BFW BLOCK] ")
  {
    assert m + [] == m;
  }

  /** The level the logging chains are compiled for: low when the state names none. */
  function LevelOf(st: State): Level {
    match st.logging
    case LevelUnset => Low
    case level => level
  }

  lemma LevelInFront(st: State, etc: Defaults, now: int, fixed: FixedRules, d: Direction, sort: Sorting)
    requires !st.panic && CompileState(st, etc, now, fixed, sort).Ok?
    ensures CompileState(st, etc, now, fixed, sort).value.chains(BeforeLogging(d)) == BeforeLoggingChain(LevelOf(st))
  {
  }

  lemma LevelBehind(st: State, etc: Defaults, now: int, fixed: FixedRules, d: Direction, sort: Sorting)
    requires !st.panic && CompileState(st, etc, now, fixed, sort).Ok?
    ensures CompileState(st, etc, now, fixed, sort).value.chains(AfterLogging(d))
      == AfterLoggingChain(LevelOf(st), EffectivePolicies(st, etc).For(d))
  {
  }

  lemma LevelDeny(st: State, etc: Defaults, now: int, fixed: FixedRules, sort: Sorting)
    requires !st.panic && CompileState(st, etc, now, fixed, sort).Ok?
    ensures CompileState(st, etc, now, fixed, sort).value.chains(LogDeny) == LogDenyChain(LevelOf(st))
  {
  }

  lemma LevelAllow(st: State, etc: Defaults, now: int, fixed: FixedRules, sort: Sorting)
    requires !st.panic && CompileState(st, etc, now, fixed, sort).Ok?
    ensures CompileState(st, etc, now, fixed, sort).value.chains(LogAllow) == LogAllowChain(LevelOf(st))
  {
  }

  lemma LevelLimit(st: State, etc: Defaults, now: int, fixed: FixedRules, sort: Sorting)
    requires !st.panic && CompileState(st, etc, now, fixed, sort).Ok?
    ensures CompileState(st, etc, now, fixed, sort).value.chains(UserLimit) == UserLimitChain(LevelOf(st))
  {
  }

  /** Outside panic the compiled program has the chains of that level. */
  lemma LevelCompiled(st: State, etc: Defaults, now: int, fixed: FixedRules, d: Direction, sort: Sorting)
    requires !st.panic && CompileState(st, etc, now, fixed, sort).Ok?
    ensures var P := CompileState(st, etc, now, fixed, sort).value;
      var level := LevelOf(st);
      && P.chains(BeforeLogging(d)) == BeforeLoggingChain(level)
      && P.chains(AfterLogging(d)) == AfterLoggingChain(level, EffectivePolicies(st, etc).For(d))
      && P.chains(LogDeny) == LogDenyChain(level) && P.chains(LogAllow) == LogAllowChain(level)
      && P.chains(UserLimit) == UserLimitChain(level)
  {
    LevelInFront(st, etc, now, fixed, d, sort);
    LevelBehind(st, etc, now, fixed, d, sort);
    LevelDeny(st, etc, now, fixed, sort);
    LevelAllow(st, etc, now, fixed, sort);
    LevelLimit(st, etc, now, fixed, sort);
  }
}
