/** Log flags never change a verdict, and a user log record belongs to the deciding rule. */
module CompileLogging {
  import opened Bytes
  import opened Cidr
  import opened Intervals
  import opened Rules
  import opened Nft
  import opened Store
  import opened Compile
  import opened CompileMatch
  import opened ChainEval
  import opened CompileUser
  import opened CompileFixed
  import opened CompileTheorems

  // ---- attribution ----------------------------------------------------------------------

  /** Whether a rule's log entries apply to the packet whenever its match does. */
  predicate LogsPacket(r: Rule, p: Packet) {
    r.log == LogAll || (r.log == LogNew && p.ct == CtNew)
  }

  /** One rate-limited record with the rule's own prefix. */
  function Recorded(env: Env, r: Rule, st: St): St {
    St(st.tick + 1,
       st.logs + if env.rate(st.tick) then [(UserLogging(r.dir), LogPrefix(r.action))] else [])
  }

  lemma TestsNewOnly(env: Env, sets: map<SetKey, SetBody>, r: Rule)
    requires env.pkt.Valid()
    ensures Tests(env, sets, NewOnly(r), r.log == LogNew ==> env.pkt.ct == CtNew)
  {
    if r.log == LogNew {
      TestsCt(env, sets, CT_NEW);
      CtBits(env.pkt.ct);
    } else {
      TestsNone(env, sets);
    }
  }

  /** A variant's entries: skipped without a match, else one record and a return. */
  lemma EvalEntries(env: Env, P: Program, r: Rule, m: seq<Expr>, cond: bool, rest: seq<seq<Expr>>, st: St, depth: nat)
    requires env.pkt.Valid() && Tests(env, P.sets, m, cond)
    requires cond ==> LogsPacket(r, env.pkt)
    ensures Eval(env, P, UserLogging(r.dir), LogEntries(r, m) + rest, st, depth)
         == if cond then Fell(Recorded(env, r, st)) else Eval(env, P, UserLogging(r.dir), rest, st, depth)
  {
    if r.log == LogNone {
      assert LogEntries(r, m) + rest == rest;
    } else {
      var here, g := UserLogging(r.dir), m + NewOnly(r);
      var logTail := [LIMIT3, Log(LogPrefix(r.action))];
      var rest1 := [g + [Counter, Return]] + rest;
      TestsNewOnly(env, P.sets, r);
      TestsConcat(env, P.sets, m, NewOnly(r), cond, r.log == LogNew ==> env.pkt.ct == CtNew);
      assert LogEntries(r, m) + rest == [g + logTail] + rest1;
      assert ([g + logTail] + rest1)[1..] == rest1;
      ExecGuarded(env, P.sets, here, g, cond, logTail, st);
      if cond {
        var reg :| Exec(env, P.sets, here, g + logTail, st, []) == Exec(env, P.sets, here, logTail, st, reg);
        ExecTwo(env, P.sets, here, LIMIT3, Log(LogPrefix(r.action)), st, reg);
        assert st.logs + [] == st.logs;
        EvalReturn(env, P, here, g, cond, rest, Recorded(env, r, st), depth);
      } else {
        EvalReturn(env, P, here, g, cond, rest, st, depth);
      }
    }
  }

  lemma EvalVariantEntries(env: Env, P: Program, r: Rule, proto: Proto, v6: bool, a: Alloc,
                           rest: seq<seq<Expr>>, st: St, depth: nat)
    requires env.pkt.Valid() && r.ValidAddrs() && Encodable(r)
    requires !MatchFails(r, proto, v6) && IdsUsed(a) && Holds(P.sets, VariantAlloc(r, proto, v6, a))
    requires VariantMatches(r, proto, v6, CompiledSets(P.sets), env.pkt) ==> LogsPacket(r, env.pkt)
    ensures Eval(env, P, UserLogging(r.dir), VariantRules(r, proto, v6, a, UserLogging(r.dir)) + rest, st, depth)
         == if VariantMatches(r, proto, v6, CompiledSets(P.sets), env.pkt) then Fell(Recorded(env, r, st))
            else Eval(env, P, UserLogging(r.dir), rest, st, depth)
  {
    VariantAllocGrows(r, proto, v6, a);
    PresentLater(P.sets, VariantAlloc(r, proto, v6, a), r, proto, a);
    TestsMatch(env, P.sets, r, proto, v6, a);
    EvalEntries(env, P, r, MatchExprs(r, proto, v6, a),
                VariantMatches(r, proto, v6, CompiledSets(P.sets), env.pkt), rest, st, depth);
  }

  lemma EvalRuleEntries(env: Env, P: Program, r: Rule, v6: bool, now: int, d: Direction, a: Alloc,
                        rest: seq<seq<Expr>>, st: St, depth: nat)
    requires env.pkt.Valid() && r.ValidAddrs() && Encodable(r)
    requires !RuleFails(r, v6, now) && IdsUsed(a) && Holds(P.sets, RuleAlloc(r, v6, now, a))
    requires Hits(r, v6, d, now, CompiledSets(P.sets), env.pkt) ==> LogsPacket(r, env.pkt)
    ensures Eval(env, P, UserLogging(d), RuleRules(r, v6, now, a, UserLogging(d)) + rest, st, depth)
         == if Hits(r, v6, d, now, CompiledSets(P.sets), env.pkt) then Fell(Recorded(env, r, st))
            else Eval(env, P, UserLogging(d), rest, st, depth)
  {
    if r.Active(now) && r.dir == d {
      var v := Variants(r);
      var a1 := VariantAlloc(r, v[0], v6, a);
      assert !MatchFails(r, v[0], v6);
      VariantsExact(r, v6, CompiledSets(P.sets), env.pkt);
      VariantAllocGrows(r, v[0], v6, a);
      if |v| == 1 {
        OneBlock(r, v6, now, a, UserLogging(d), rest);
        EvalVariantEntries(env, P, r, v[0], v6, a, rest, st, depth);
      } else {
        assert !MatchFails(r, v[1], v6);
        TwoBlocks(r, v6, now, a, UserLogging(d), rest);
        VariantAllocGrows(r, v[1], v6, a1);
        EvalVariantEntries(env, P, r, v[0], v6, a, VariantRules(r, v[1], v6, a1, UserLogging(d)) + rest, st, depth);
        EvalVariantEntries(env, P, r, v[1], v6, a1, rest, st, depth);
      }
    } else {
      NoBlock(r, v6, now, a, d, UserLogging(d), rest);
    }
  }

  /** The entries of rules that do not hit are skipped; the first hit records and returns. */
  lemma {:induction false} EvalListEntries(env: Env, P: Program, rules: seq<Rule>, v6: bool, now: int, d: Direction, a: Alloc,
                                           rest: seq<seq<Expr>>, st: St, depth: nat)
    requires env.pkt.Valid() && Ready(P.sets, rules, v6, now, a)
    requires var k := FirstHit(rules, v6, d, now, CompiledSets(P.sets), env.pkt);
      k.Some? ==> LogsPacket(rules[k.value], env.pkt)
    ensures var k := FirstHit(rules, v6, d, now, CompiledSets(P.sets), env.pkt);
      Eval(env, P, UserLogging(d), ListRules(rules, v6, now, a, UserLogging(d)) + rest, st, depth)
      == if k.Some? then Fell(Recorded(env, rules[k.value], st)) else Eval(env, P, UserLogging(d), rest, st, depth)
  {
    if rules == [] {
      assert ListRules(rules, v6, now, a, UserLogging(d)) + rest == rest;
    } else {
      var a1 := RuleAlloc(rules[0], v6, now, a);
      var rest1 := ListRules(rules[1..], v6, now, a1, UserLogging(d)) + rest;
      ReadyParts(P.sets, rules, v6, now, a);
      ListShape(rules, v6, now, a, UserLogging(d), rest);
      FirstHitStep(rules, v6, d, now, CompiledSets(P.sets), env.pkt);
      EvalRuleEntries(env, P, rules[0], v6, now, d, a, rest1, st, depth);
      if !Hits(rules[0], v6, d, now, CompiledSets(P.sets), env.pkt) {
        EvalListEntries(env, P, rules[1..], v6, now, d, a1, rest, st, depth);
      }
    }
  }

  /** The rule that decides the packet in the user chain of its direction. */
  function DecidingRule(st: State, now: int, d: Direction, p: Packet, sets: SetFn): Option<Rule>
    requires ValidRules(st.rules4) && ValidRules(st.rules6)
  {
    Deciding(st.rules4, st.rules6, now, d, sets, p)
  }

  /** The user chains of one direction, compiled from these lists. */
  ghost predicate UserChainsOf(P: Program, r4: seq<Rule>, r6: seq<Rule>, now: int, a: Alloc, d: Direction, level: Level) {
    && ReadyBoth(P.sets, r4, r6, now, a) && UserContext(P, d, level)
    && P.chains(User(d)) == BothRules(r4, r6, now, a, User(d))
    && P.chains(UserLogging(d)) == UserLoggingHead(level) + BothRules(r4, r6, now, a, UserLogging(d))
  }

  /** For a NEW packet or a log-all rule the first log entry that matches is the deciding rule's. */
  lemma EvalLogChain(env: Env, P: Program, r4: seq<Rule>, r6: seq<Rule>, now: int, d: Direction, a: Alloc, s: St, depth: nat)
    requires env.pkt.Valid() && ReadyBoth(P.sets, r4, r6, now, a)
    requires var r := Deciding(r4, r6, now, d, CompiledSets(P.sets), env.pkt); r.Some? && LogsPacket(r.value, env.pkt)
    ensures var r := Deciding(r4, r6, now, d, CompiledSets(P.sets), env.pkt).value;
      Eval(env, P, UserLogging(d), BothRules(r4, r6, now, a, UserLogging(d)), s, depth) == Fell(Recorded(env, r, s))
  {
    var a6 := ListAlloc(r4, false, now, a);
    var rest := ListRules(r6, true, now, a6, UserLogging(d));
    if env.pkt.v6 {
      OtherFamily(r4, false, d, now, CompiledSets(P.sets), env.pkt);
      assert rest + [] == rest;
      EvalListEntries(env, P, r6, true, now, d, a6, [], s, depth);
    }
    EvalListEntries(env, P, r4, false, now, d, a, rest, s, depth);
  }

  lemma UserLogsRecorded(env: Env, r: Rule, s: St, logged: bool)
    ensures UserLogs(r.dir, (if logged then Recorded(env, r, s) else s).logs)
         == UserLogs(r.dir, s.logs)
            + if logged && env.rate(s.tick) then [(UserLogging(r.dir), LogPrefix(r.action))] else []
  {
    if logged && env.rate(s.tick) {
      UserLogsSnoc(r.dir, s.logs, (UserLogging(r.dir), LogPrefix(r.action)));
    } else {
      assert s.logs + [] == s.logs;
    }
  }

  /** At level off the logging chain returns at once. */
  lemma OffReturns(env: Env, P: Program, d: Direction, rest: seq<seq<Expr>>, s: St, depth: nat)
    requires env.pkt.Valid()
    ensures Eval(env, P, UserLogging(d), UserLoggingHead(Off) + rest, s, depth) == Fell(s)
  {
    TestsNone(env, P.sets);
    assert [] + [Counter, Return] == [Counter, Return];
    EvalReturn(env, P, UserLogging(d), [], true, rest, s, depth);
  }

  /** The whole logging chain, for a rule whose entries apply to the packet. */
  lemma EvalUserLogging(env: Env, P: Program, r4: seq<Rule>, r6: seq<Rule>, now: int, d: Direction, a: Alloc,
                        level: Level, s: St, depth: nat)
    requires env.pkt.Valid() && UserChainsOf(P, r4, r6, now, a, d, level)
    requires var r := Deciding(r4, r6, now, d, CompiledSets(P.sets), env.pkt);
      r.Some? && (level == Off || LogsPacket(r.value, env.pkt))
    ensures var r := Deciding(r4, r6, now, d, CompiledSets(P.sets), env.pkt).value;
      Eval(env, P, UserLogging(d), P.chains(UserLogging(d)), s, depth)
      == Fell(if level == Off then s else Recorded(env, r, s))
  {
    var entries := BothRules(r4, r6, now, a, UserLogging(d));
    if level == Off {
      OffReturns(env, P, d, entries, s, depth);
    } else {
      assert [] + entries == entries;
      EvalLogChain(env, P, r4, r6, now, d, a, s, depth);
    }
  }

  lemma JumpState(env: Env, P: Program, r4: seq<Rule>, r6: seq<Rule>, now: int, d: Direction, a: Alloc,
                  level: Level, s: St, r: Rule)
    requires env.pkt.Valid() && UserChainsOf(P, r4, r6, now, a, d, level)
    requires Deciding(r4, r6, now, d, CompiledSets(P.sets), env.pkt) == Some(r)
    requires r.log == LogNone || level == Off || LogsPacket(r, env.pkt)
    ensures AfterLogJump(env, P, r, s, 2) == if r.log == LogNone || level == Off then s else Recorded(env, r, s)
  {
    if r.log != LogNone {
      EvalUserLogging(env, P, r4, r6, now, d, a, level, s, 1);
    }
  }

  /** What the log jump of the deciding rule adds to the user log. */
  lemma JumpLogs(env: Env, P: Program, r4: seq<Rule>, r6: seq<Rule>, now: int, d: Direction, a: Alloc,
                 level: Level, s: St, r: Rule)
    requires env.pkt.Valid() && UserChainsOf(P, r4, r6, now, a, d, level)
    requires Deciding(r4, r6, now, d, CompiledSets(P.sets), env.pkt) == Some(r)
    requires r.log == LogNone || level == Off || LogsPacket(r, env.pkt)
    ensures UserLogs(d, AfterLogJump(env, P, r, s, 2).logs) == UserLogs(d, s.logs)
      + if r.log != LogNone && level != Off && env.rate(s.tick) then [(UserLogging(d), LogPrefix(r.action))] else []
  {
    JumpState(env, P, r4, r6, now, d, a, level, s, r);
    UserLogsRecorded(env, r, s, r.log != LogNone && level != Off);
  }

  lemma AttributedIn(env: Env, P: Program, r4: seq<Rule>, r6: seq<Rule>, now: int, d: Direction, a: Alloc,
                     level: Level, s: St, r: Rule)
    requires env.pkt.Valid() && UserChainsOf(P, r4, r6, now, a, d, level)
    requires Deciding(r4, r6, now, d, CompiledSets(P.sets), env.pkt) == Some(r)
    requires r.log == LogNone || level == Off || LogsPacket(r, env.pkt)
    ensures var o := Eval(env, P, User(d), P.chains(User(d)), s, 2);
      && o.Decided?
      && UserLogs(d, o.st.logs) == UserLogs(d, s.logs)
         + if r.log != LogNone && level != Off && env.rate(s.tick) then [(UserLogging(d), LogPrefix(r.action))] else []
  {
    var end := EvalBoth(env, P, r4, r6, now, d, a, level, s, 2);
    JumpLogs(env, P, r4, r6, now, d, a, level, s, r);
  }

  lemma CompiledUserChains(st: State, etc: Defaults, now: int, fixed: FixedRules, P: Program, d: Direction, sort: Sorting)
    requires st.Valid() && !st.panic && CompileState(st, etc, now, fixed, sort) == Ok(P)
    ensures UserChainsOf(P, st.rules4, st.rules6, now, BaseAlloc(st, now, sort), d, EffectiveLevel(st))
  {
    BothReady(st, now, sort);
    CompileGives(st, etc, now, fixed, sort);
    UserChains(st, etc, now, fixed, P, d, sort);
    UserChainsContext(st, etc, now, fixed, P, d, sort);
  }

  /** What the user chain logs: nothing for an unlogged deciding rule, nothing at level off,
      and otherwise, for a NEW packet or a log-all rule, at most that rule's own record. */
  lemma UserLogAttributed(st: State, etc: Defaults, now: int, fixed: FixedRules, env: Env, P: Program, d: Direction, s: St, sort: Sorting)
    requires env.pkt.Valid() && st.Valid() && !st.panic && CompileState(st, etc, now, fixed, sort) == Ok(P)
    requires var r := DecidingRule(st, now, d, env.pkt, CompiledSets(P.sets));
      r.Some? && (r.value.log == LogNone || EffectiveLevel(st) == Off || LogsPacket(r.value, env.pkt))
    ensures var r := DecidingRule(st, now, d, env.pkt, CompiledSets(P.sets)).value;
      var o := Eval(env, P, User(d), P.chains(User(d)), s, 2);
      && o.Decided?
      && UserLogs(d, o.st.logs) == UserLogs(d, s.logs)
         + if r.log != LogNone && EffectiveLevel(st) != Off && env.rate(s.tick)
           then [(UserLogging(d), LogPrefix(r.action))] else []
  {
    CompiledUserChains(st, etc, now, fixed, P, d, sort);
    AttributedIn(env, P, st.rules4, st.rules6, now, d, BaseAlloc(st, now, sort), EffectiveLevel(st), s,
                 DecidingRule(st, now, d, env.pkt, CompiledSets(P.sets)).value);
  }

  /** A packet no user rule hits leaves the user chain as it entered: no record, no draw. */
  lemma UndecidedUnlogged(st: State, etc: Defaults, now: int, fixed: FixedRules, env: Env, P: Program, d: Direction, s: St, sort: Sorting)
    requires env.pkt.Valid() && st.Valid() && !st.panic && CompileState(st, etc, now, fixed, sort) == Ok(P)
    requires DecidingRule(st, now, d, env.pkt, CompiledSets(P.sets)).None?
    ensures Eval(env, P, User(d), P.chains(User(d)), s, 2) == Fell(s)
  {
    CompiledUserChains(st, etc, now, fixed, P, d, sort);
    var _ := EvalBoth(env, P, st.rules4, st.rules6, now, d, BaseAlloc(st, now, sort), EffectiveLevel(st), s, 2);
  }

  // ---- neutrality --------------------------------------------------------------------------

  /** Two lists that differ in log flags only. */
  ghost predicate SameButLogs(a: seq<Rule>, b: seq<Rule>) {
    |a| == |b| && forall i :: 0 <= i < |a| ==> a[i].(log := b[i].log) == b[i]
  }

  lemma {:induction false} SameAlloc(a: seq<Rule>, b: seq<Rule>, v6: bool, now: int, al: Alloc)
    requires SameButLogs(a, b)
    ensures ListAlloc(a, v6, now, al) == ListAlloc(b, v6, now, al)
  {
    if a != [] {
      SameRuleAlloc(a[0], b[0], v6, now, al);
      assert SameButLogs(a[1..], b[1..]);
      SameAlloc(a[1..], b[1..], v6, now, RuleAlloc(a[0], v6, now, al));
    }
  }

  lemma SameVariants(r: Rule, q: Rule, v6: bool)
    requires r.(log := q.log) == q
    ensures Variants(r) == Variants(q)
    ensures forall p :: MatchFails(r, p, v6) == MatchFails(q, p, v6)
  {
  }

  lemma SameVariantAlloc(r: Rule, q: Rule, p: Proto, v6: bool, al: Alloc)
    requires r.(log := q.log) == q
    ensures VariantAlloc(r, p, v6, al) == VariantAlloc(q, p, v6, al)
  {
  }

  lemma SameRuleAlloc(r: Rule, q: Rule, v6: bool, now: int, al: Alloc)
    requires r.(log := q.log) == q
    ensures RuleAlloc(r, v6, now, al) == RuleAlloc(q, v6, now, al)
  {
    SameVariants(r, q, v6);
    var v := Variants(r);
    SameVariantAlloc(r, q, v[0], v6, al);
    if |v| == 2 {
      SameVariantAlloc(r, q, v[1], v6, VariantAlloc(r, v[0], v6, al));
    }
  }

  lemma SameRuleFails(r: Rule, q: Rule, v6: bool, now: int)
    requires r.(log := q.log) == q
    ensures RuleFails(r, v6, now) == RuleFails(q, v6, now)
  {
    SameVariants(r, q, v6);
  }

  lemma SameFails(a: seq<Rule>, b: seq<Rule>, v6: bool, now: int)
    requires SameButLogs(a, b)
    ensures ListFails(a, v6, now) == ListFails(b, v6, now)
  {
    forall i | 0 <= i < |a| ensures RuleFails(a[i], v6, now) == RuleFails(b[i], v6, now) {
      SameRuleFails(a[i], b[i], v6, now);
    }
  }

  lemma SameHits(r: Rule, q: Rule, v6: bool, d: Direction, now: int, sets: SetFn, p: Packet)
    requires r.(log := q.log) == q && r.ValidAddrs()
    ensures Hits(r, v6, d, now, sets, p) == Hits(q, v6, d, now, sets, p)
  {
  }

  lemma {:induction false} SameFirstHit(a: seq<Rule>, b: seq<Rule>, v6: bool, d: Direction, now: int, sets: SetFn, p: Packet)
    requires SameButLogs(a, b) && ValidRules(a) && ValidRules(b)
    ensures FirstHit(a, v6, d, now, sets, p) == FirstHit(b, v6, d, now, sets, p)
  {
    if a != [] {
      assert SameButLogs(a[1..], b[1..]);
      FirstHitStep(a, v6, d, now, sets, p);
      FirstHitStep(b, v6, d, now, sets, p);
      SameHits(a[0], b[0], v6, d, now, sets, p);
      SameFirstHit(a[1..], b[1..], v6, d, now, sets, p);
    }
  }

  /** s2 is s1 with other log flags and another logging level. */
  ghost predicate SameButLogging(s1: State, s2: State) {
    && SameButLogs(s1.rules4, s2.rules4) && SameButLogs(s1.rules6, s2.rules6)
    && s1.(rules4 := s2.rules4, rules6 := s2.rules6, logging := s2.logging) == s2
  }

  lemma SameCompileFails(s1: State, s2: State, now: int)
    requires SameButLogging(s1, s2)
    ensures CompileFails(s1, now) == CompileFails(s2, now)
  {
    SameFails(s1.rules4, s2.rules4, false, now);
    SameFails(s1.rules6, s2.rules6, true, now);
  }

  lemma SameFinalAlloc(s1: State, s2: State, now: int, sort: Sorting)
    requires SameButLogging(s1, s2)
    ensures FinalAlloc(s1, now, sort) == FinalAlloc(s2, now, sort)
  {
    var a := BaseAlloc(s1, now, sort);
    SameAlloc(s1.rules4, s2.rules4, false, now, a);
    SameAlloc(s1.rules6, s2.rules6, true, now, ListAlloc(s1.rules4, false, now, a));
  }

  lemma SameReference(s1: State, s2: State, etc: Defaults, now: int, fixed: FixedRules, d: Direction, env: Env,
                      sets: SetFn, banned: bool)
    requires s1.Valid() && s2.Valid() && SameButLogging(s1, s2)
    ensures Reference(s1, etc, now, fixed, d, env, sets, banned)
         == Reference(s2, etc, now, fixed, d, env, sets, banned)
  {
    var v6 := env.pkt.v6;
    SameFirstHit(if v6 then s1.rules6 else s1.rules4, if v6 then s2.rules6 else s2.rules4, v6, d, now, sets, env.pkt);
  }

  /** Changing log flags and the logging level never changes a verdict. */
  lemma LoggingNeutral(s1: State, s2: State, etc: Defaults, now: int, fixed: FixedRules, d: Direction, env: Env, sort: Sorting)
    requires s1.Valid() && s2.Valid() && env.pkt.Valid() && SameButLogging(s1, s2)
    ensures CompileState(s1, etc, now, fixed, sort).Ok? == CompileState(s2, etc, now, fixed, sort).Ok?
    ensures CompileState(s1, etc, now, fixed, sort).Ok? ==>
      Traverse(env, CompileState(s1, etc, now, fixed, sort).value, d, BasePolicy(s1, etc, d), 3)
      == Traverse(env, CompileState(s2, etc, now, fixed, sort).value, d, BasePolicy(s2, etc, d), 3)
  {
    SameCompileFails(s1, s2, now);
    if CompileState(s1, etc, now, fixed, sort).Ok? {
      var sets := FinalAlloc(s1, now, sort).sets;
      SameFinalAlloc(s1, s2, now, sort);
      SameReference(s1, s2, etc, now, fixed, d, env, CompiledSets(sets), Banned(sets, env.pkt));
      VerdictOf(s1, etc, now, fixed, d, env, CompileState(s1, etc, now, fixed, sort).value, sort);
      VerdictOf(s2, etc, now, fixed, d, env, CompileState(s2, etc, now, fixed, sort).value, sort);
    }
  }
}
