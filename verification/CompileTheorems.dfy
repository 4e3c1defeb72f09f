/** The compiler's main results. */
module CompileTheorems {
  import opened Bytes
  import opened Cidr
  import opened Intervals
  import opened Rules
  import opened Nft
  import opened Store
  import opened Compile
  import opened CompileMatch
  import opened ChainEval
  import opened CompileUser
  import opened AddressSets
  import opened CompileFixed

  // ---- the context a compiled program provides ------------------------------------------

  lemma QuietLogging(level: Level, p: PolicyWord)
    ensures Quiet(LogDenyChain(level)) && Quiet(BeforeLoggingChain(level))
    ensures Quiet(AfterLoggingChain(level, p)) && Quiet(UserLoggingHead(level))
  {
    assert QuietRule(LogRule(level, "[BFW BLOCK] ")) && QuietRule(LogRule(level, "[BFW ALLOW] "));
    assert QuietRule(CtExprs(CT_INVALID) + [LIMIT3, Counter, Return]);
    QuietAppend(CtExprs(CT_INVALID), LogRule(level, "[BFW AUDIT INVALID] "));
    assert QuietRule(CtExprs(CT_NEW) + [LIMIT3, Log("[BFW AUDIT] ")]);
  }

  lemma QuietUserLogging(st: State, now: int, level: Level, d: Direction, sort: Sorting)
    ensures Quiet(UserLoggingHead(level) + UserRules(st, now, UserLogging(d), sort))
  {
    var a := BaseAlloc(st, now, sort);
    QuietLogging(level, PolicyOther);
    QuietList(st.rules4, false, now, a, d);
    QuietList(st.rules6, true, now, ListAlloc(st.rules4, false, now, a), d);
    QuietConcat(ListRules(st.rules4, false, now, a, UserLogging(d)),
                ListRules(st.rules6, true, now, ListAlloc(st.rules4, false, now, a), UserLogging(d)));
    QuietConcat(UserLoggingHead(level), UserRules(st, now, UserLogging(d), sort));
  }

  lemma {:induction false} NamedIds(sets: seq<IpSet>, a: Alloc, sort: Sorting)
    requires IdsUsed(a)
    ensures IdsUsed(NamedAlloc(sets, a, sort))
  {
    if sets != [] {
      NamedIds(sets[1..], WithNamed(sets[0], a, sort), sort);
    }
  }

  lemma BothReady(st: State, now: int, sort: Sorting)
    requires st.Valid() && !CompileFails(st, now) && !st.panic
    ensures ReadyBoth(FinalAlloc(st, now, sort).sets, st.rules4, st.rules6, now, BaseAlloc(st, now, sort))
  {
    var a := BaseAlloc(st, now, sort);
    NamedIds(st.sets, BanAlloc(st, now, sort), sort);
    ListAllocGrows(st.rules4, false, now, a);
    ListAllocGrows(st.rules6, true, now, ListAlloc(st.rules4, false, now, a));
  }

  lemma EvalUser(st: State, now: int, env: Env, P: Program, d: Direction, level: Level, s: St, depth: nat, sort: Sorting)
    requires env.pkt.Valid() && st.Valid() && !CompileFails(st, now) && !st.panic && depth > 0
    requires P.sets == FinalAlloc(st, now, sort).sets && UserContext(P, d, level)
    ensures Agrees(Eval(env, P, User(d), UserRules(st, now, User(d), sort), s, depth),
                   UserVerdict(st, now, d, env, CompiledSets(P.sets)))
  {
    BothReady(st, now, sort);
    var _ := EvalBoth(env, P, st.rules4, st.rules6, now, d, BaseAlloc(st, now, sort), level, s, depth);
  }

  // ---- after the user rules ------------------------------------------------------------------

  lemma EvalTrack(env: Env, P: Program, d: Direction, p: PolicyWord, s: St, depth: nat)
    requires env.pkt.Valid()
    ensures var o := Eval(env, P, Track(d), TrackChain(p), s, depth);
      o == Fell(s) || (p == PolicyAllow && o == Decided(Accept, s))
  {
    if p == PolicyAllow {
      var t6, t17 := L4Exprs(6) + CtExprs(CT_NEW), L4Exprs(17) + CtExprs(CT_NEW);
      TestsL4(env, P.sets, 6);
      TestsL4(env, P.sets, 17);
      TestsCt(env, P.sets, CT_NEW);
      var isNew := And8(CtBit(env.pkt.ct), CT_NEW) != 0;
      TestsConcat(env, P.sets, L4Exprs(6), CtExprs(CT_NEW), env.pkt.l4 == 6, isNew);
      TestsConcat(env, P.sets, L4Exprs(17), CtExprs(CT_NEW), env.pkt.l4 == 17, isNew);
      var last := [t17 + [Counter, Decide(Accept)]];
      assert TrackChain(p) == [t6 + [Counter, Decide(Accept)]] + last && last == last + [];
      EvalVerdict(env, P, Track(d), t6, env.pkt.l4 == 6 && isNew, Accept, last, s, depth);
      EvalVerdict(env, P, Track(d), t17, env.pkt.l4 == 17 && isNew, Accept, [], s, depth);
    }
  }

  function BasePolicyFor(p: PolicyWord): Verdict {
    if p == PolicyAllow then Accept else Drop
  }

  function Settled(o: Outcome, policy: Verdict): Option<Verdict> {
    match o
    case Decided(v, _) => Some(v)
    case Fell(_) => Some(policy)
    case TooDeep => None
  }

  /** The chains that run once no user rule has decided. */
  ghost predicate PolicyContext(P: Program, d: Direction, p: PolicyWord, fixed: FixedRules, level: Level) {
    && P.chains(After(d)) == (if d == In then OpaqueJumps(fixed.quiet, SkipToPolicy(In)) else [])
    && P.chains(SkipToPolicy(d)) == [[Counter, Decide(PolicyVerdict(p))]]
    && Quiet(P.chains(AfterLogging(d)))
    && P.chains(RejectChain(d)) == (if p == PolicyReject then [[Counter, Decide(Refuse)]] else [])
    && P.chains(Track(d)) == TrackChain(p)
  }

  /** Skip-to-policy, reject and track detours all agree with the policy. */
  lemma EvalPolicy(env: Env, P: Program, d: Direction, p: PolicyWord, fixed: FixedRules, level: Level, s: St, depth: nat)
    requires env.pkt.Valid() && depth > 1 && PolicyContext(P, d, p, fixed, level)
    ensures Settled(Eval(env, P, Base(d),
        [[Counter, Jump(After(d))]] + ([[Counter, Jump(AfterLogging(d))]]
        + ([[Counter, Jump(RejectChain(d))]] + [[Counter, Jump(Track(d))]])), s, depth), BasePolicyFor(p))
      == Some(PolicyVerdict(p))
  {
    var t3 := [[Counter, Jump(Track(d))]];
    var t2 := [[Counter, Jump(RejectChain(d))]] + t3;
    var t1 := [[Counter, Jump(AfterLogging(d))]] + t2;
    EvalPlainJump(env, P, Base(d), After(d), t1, s, depth);
    if d == In {
      EvalOpaqueJumps(env, P, After(In), fixed.quiet, SkipToPolicy(In), PolicyVerdict(p), s, depth - 1);
    }
    EvalPlainJump(env, P, Base(d), AfterLogging(d), t2, s, depth);
    EvalQuiet(env, P, AfterLogging(d), P.chains(AfterLogging(d)), s, depth - 1);
    var s1 := Eval(env, P, AfterLogging(d), P.chains(AfterLogging(d)), s, depth - 1).st;
    EvalReject(env, P, d, p, fixed, level, s1, depth);
  }

  lemma EvalReject(env: Env, P: Program, d: Direction, p: PolicyWord, fixed: FixedRules, level: Level, s: St, depth: nat)
    requires env.pkt.Valid() && depth > 1 && PolicyContext(P, d, p, fixed, level)
    ensures Settled(Eval(env, P, Base(d), [[Counter, Jump(RejectChain(d))]] + [[Counter, Jump(Track(d))]], s, depth),
                    BasePolicyFor(p)) == Some(PolicyVerdict(p))
  {
    var t3 := [[Counter, Jump(Track(d))]];
    EvalPlainJump(env, P, Base(d), RejectChain(d), t3, s, depth);
    if p == PolicyReject {
      EvalPlainVerdict(env, P, RejectChain(d), Refuse, [], s, depth - 1);
      assert [[Counter, Decide(Refuse)]] + [] == [[Counter, Decide(Refuse)]];
    }
    assert t3 + [] == t3;
    EvalPlainJump(env, P, Base(d), Track(d), [], s, depth);
    EvalTrack(env, P, d, p, s, depth - 1);
  }

  // ---- the base chain ---------------------------------------------------------------------------

  function Jumps(d: Direction): seq<seq<Expr>> {
    [[Counter, Jump(BeforeLogging(d))]] + ([[Counter, Jump(Before(d))]] + ([[Counter, Jump(User(d))]]
    + ([[Counter, Jump(After(d))]] + ([[Counter, Jump(AfterLogging(d))]]
    + ([[Counter, Jump(RejectChain(d))]] + [[Counter, Jump(Track(d))]])))))
  }

  /** With IPv6 off, an IPv6 packet is settled before any jump. */
  lemma EvalIpv6Off(env: Env, P: Program, d: Direction, s: St, depth: nat)
    requires env.pkt.Valid()
    ensures BaseChain(d, true) == Jumps(d)
    ensures Eval(env, P, Base(d), BaseChain(d, false), s, depth)
         == if env.pkt.v6 then Decided(if ViaLoopback(d, env.pkt) then Accept else Drop, s)
            else Eval(env, P, Base(d), Jumps(d), s, depth)
  {
    var dropRule := [FamilyExprs(true) + [Counter, Decide(Drop)]];
    var jumps := Jumps(d);
    TestsFamily(env, P.sets, true);
    EvalVerdict(env, P, Base(d), FamilyExprs(true), env.pkt.v6, Drop, jumps, s, depth);
    if d == Routed {
      assert BaseChain(d, false) == dropRule + jumps;
    } else {
      var name := if d == In then env.pkt.iif else env.pkt.oif;
      var lo := FamilyExprs(true) + IfaceExprs(d == In, LOOPBACK);
      TestsIface(env, P.sets, d == In, LOOPBACK);
      TestsConcat(env, P.sets, FamilyExprs(true), IfaceExprs(d == In, LOOPBACK), env.pkt.v6, NameMatches(LOOPBACK, name));
      assert BaseChain(d, false) == [lo + [Counter, Decide(Accept)]] + (dropRule + jumps);
      EvalVerdict(env, P, Base(d), lo, env.pkt.v6 && name == LOOPBACK, Accept, dropRule + jumps, s, depth);
    }
  }

  /** P holds what the compiler puts into each chain and set of an unpanicked state. */
  ghost predicate Compiled(P: Program, st: State, etc: Defaults, now: int, fixed: FixedRules, sort: Sorting) {
    P.sets == FinalAlloc(st, now, sort).sets && forall c :: P.chains(c) == ChainContents(st, etc, now, fixed, c, sort)
  }

  lemma FixedChains(st: State, etc: Defaults, now: int, fixed: FixedRules, P: Program, d: Direction, sort: Sorting)
    requires Compiled(P, st, etc, now, fixed, sort)
    ensures FixedContext(P) && Quiet(P.chains(BeforeLogging(d))) && P.chains(Before(d)) == BeforeChain(d, fixed)
  {
    QuietLogging(EffectiveLevel(st), PolicyOther);
    LeafChains(st, etc, now, fixed, P, sort);
  }

  lemma LeafChains(st: State, etc: Defaults, now: int, fixed: FixedRules, P: Program, sort: Sorting)
    requires Compiled(P, st, etc, now, fixed, sort)
    ensures P.chains(LogDeny) == LogDenyChain(EffectiveLevel(st))
    ensures P.chains(NotLocal) == NotLocalChain() && P.chains(UserEgress) == []
  {
  }

  lemma PolicyChains(st: State, etc: Defaults, now: int, fixed: FixedRules, P: Program, d: Direction, sort: Sorting)
    requires Compiled(P, st, etc, now, fixed, sort)
    ensures PolicyContext(P, d, EffectivePolicies(st, etc).For(d), fixed, EffectiveLevel(st))
  {
    QuietLogging(EffectiveLevel(st), EffectivePolicies(st, etc).For(d));
  }

  lemma UserChains(st: State, etc: Defaults, now: int, fixed: FixedRules, P: Program, d: Direction, sort: Sorting)
    requires Compiled(P, st, etc, now, fixed, sort)
    ensures P.chains(User(d)) == UserRules(st, now, User(d), sort)
    ensures P.chains(UserLogging(d)) == UserLoggingHead(EffectiveLevel(st)) + UserRules(st, now, UserLogging(d), sort)
  {
  }

  lemma LimitChains(st: State, etc: Defaults, now: int, fixed: FixedRules, P: Program, sort: Sorting)
    requires Compiled(P, st, etc, now, fixed, sort)
    ensures P.chains(UserLimit) == UserLimitChain(EffectiveLevel(st))
    ensures P.chains(UserLimitAccept) == [[Counter, Decide(Accept)]]
  {
  }

  lemma UserChainsContext(st: State, etc: Defaults, now: int, fixed: FixedRules, P: Program, d: Direction, sort: Sorting)
    requires Compiled(P, st, etc, now, fixed, sort)
    ensures UserContext(P, d, EffectiveLevel(st))
  {
    UserChains(st, etc, now, fixed, P, d, sort);
    LimitChains(st, etc, now, fixed, P, sort);
    QuietUserLogging(st, now, EffectiveLevel(st), d, sort);
  }

  function PolicyJumps(d: Direction): seq<seq<Expr>> {
    [[Counter, Jump(After(d))]] + ([[Counter, Jump(AfterLogging(d))]]
    + ([[Counter, Jump(RejectChain(d))]] + [[Counter, Jump(Track(d))]]))
  }

  lemma EvalJumps(st: State, pol: PolicyWord, now: int, fixed: FixedRules, env: Env, P: Program, d: Direction, level: Level, s: St, sort: Sorting)
    requires env.pkt.Valid() && st.Valid() && !CompileFails(st, now) && !st.panic
    requires P.sets == FinalAlloc(st, now, sort).sets && P.chains(User(d)) == UserRules(st, now, User(d), sort)
    requires P.chains(Before(d)) == BeforeChain(d, fixed) && FixedContext(P) && Quiet(P.chains(BeforeLogging(d)))
    requires UserContext(P, d, level) && PolicyContext(P, d, pol, fixed, level)
    ensures Settled(Eval(env, P, Base(d), Jumps(d), s, 3), BasePolicyFor(pol))
      == match BeforeVerdict(d, fixed, env, Banned(P.sets, env.pkt))
         case Some(v) => Some(v)
         case None =>
           match UserVerdict(st, now, d, env, CompiledSets(P.sets))
           case Some(v) => Some(v)
           case None => Some(PolicyVerdict(pol))
  {
    var t2 := [[Counter, Jump(User(d))]] + PolicyJumps(d);
    var s1 := EvalHead(fixed, env, P, d, t2, s);
    var o := Eval(env, P, Before(d), P.chains(Before(d)), s1, 2);
    if o.Fell? {
      EvalAfterBefore(st, pol, now, fixed, env, P, d, level, o.st, sort);
    }
  }

  /** The first two jumps: logging falls through, and the fixed rules decide or fall through. */
  lemma EvalHead(fixed: FixedRules, env: Env, P: Program, d: Direction, rest: seq<seq<Expr>>, s: St) returns (s1: St)
    requires env.pkt.Valid() && P.chains(Before(d)) == BeforeChain(d, fixed)
    requires FixedContext(P) && Quiet(P.chains(BeforeLogging(d)))
    ensures Eval(env, P, Base(d), [[Counter, Jump(BeforeLogging(d))]] + ([[Counter, Jump(Before(d))]] + rest), s, 3)
      == match Eval(env, P, Before(d), P.chains(Before(d)), s1, 2)
         case Fell(s2) => Eval(env, P, Base(d), rest, s2, 3)
         case o => o
    ensures Agrees(Eval(env, P, Before(d), P.chains(Before(d)), s1, 2),
                   BeforeVerdict(d, fixed, env, Banned(P.sets, env.pkt)))
  {
    EvalPlainJump(env, P, Base(d), BeforeLogging(d), [[Counter, Jump(Before(d))]] + rest, s, 3);
    EvalQuiet(env, P, BeforeLogging(d), P.chains(BeforeLogging(d)), s, 2);
    s1 := Eval(env, P, BeforeLogging(d), P.chains(BeforeLogging(d)), s, 2).st;
    EvalPlainJump(env, P, Base(d), Before(d), rest, s1, 3);
    EvalBefore(env, P, d, fixed, s1, 2);
  }

  lemma EvalAfterBefore(st: State, pol: PolicyWord, now: int, fixed: FixedRules, env: Env, P: Program, d: Direction, level: Level, s: St, sort: Sorting)
    requires env.pkt.Valid() && st.Valid() && !CompileFails(st, now) && !st.panic
    requires P.sets == FinalAlloc(st, now, sort).sets && P.chains(User(d)) == UserRules(st, now, User(d), sort)
    requires UserContext(P, d, level) && PolicyContext(P, d, pol, fixed, level)
    ensures Settled(Eval(env, P, Base(d), [[Counter, Jump(User(d))]] + PolicyJumps(d), s, 3), BasePolicyFor(pol))
      == match UserVerdict(st, now, d, env, CompiledSets(P.sets))
         case Some(v) => Some(v)
         case None => Some(PolicyVerdict(pol))
  {
    EvalPlainJump(env, P, Base(d), User(d), PolicyJumps(d), s, 3);
    EvalUser(st, now, env, P, d, level, s, 2, sort);
    var o := Eval(env, P, User(d), P.chains(User(d)), s, 2);
    if o.Fell? {
      EvalPolicy(env, P, d, pol, fixed, level, o.st, 3);
    }
  }

  lemma EvalFromJumps(st: State, etc: Defaults, now: int, fixed: FixedRules, env: Env, P: Program, d: Direction, sort: Sorting)
    requires env.pkt.Valid() && st.Valid() && !CompileFails(st, now) && !st.panic && Compiled(P, st, etc, now, fixed, sort)
    ensures var pol := EffectivePolicies(st, etc).For(d);
      Settled(Eval(env, P, Base(d), Jumps(d), St(0, []), 3), BasePolicyFor(pol))
      == match BeforeVerdict(d, fixed, env, Banned(P.sets, env.pkt))
         case Some(v) => Some(v)
         case None =>
           match UserVerdict(st, now, d, env, CompiledSets(P.sets))
           case Some(v) => Some(v)
           case None => Some(PolicyVerdict(pol))
  {
    FixedChains(st, etc, now, fixed, P, d, sort);
    PolicyChains(st, etc, now, fixed, P, d, sort);
    UserChains(st, etc, now, fixed, P, d, sort);
    UserChainsContext(st, etc, now, fixed, P, d, sort);
    EvalJumps(st, EffectivePolicies(st, etc).For(d), now, fixed, env, P, d, EffectiveLevel(st), St(0, []), sort);
  }

  lemma EvalBase(st: State, etc: Defaults, now: int, fixed: FixedRules, env: Env, P: Program, d: Direction, sort: Sorting)
    requires env.pkt.Valid() && st.Valid() && !CompileFails(st, now) && !st.panic && Compiled(P, st, etc, now, fixed, sort)
    ensures Settled(Eval(env, P, Base(d), BaseChain(d, EffectiveIpv6(st, etc)), St(0, []), 3),
                    BasePolicyFor(EffectivePolicies(st, etc).For(d)))
      == Some(Reference(st, etc, now, fixed, d, env, CompiledSets(P.sets), Banned(P.sets, env.pkt)))
  {
    var ipv6 := EffectiveIpv6(st, etc);
    EvalIpv6Off(env, P, d, St(0, []), 3);
    if ipv6 {
      EvalFromJumps(st, etc, now, fixed, env, P, d, sort);
    } else if !env.pkt.v6 {
      EvalFromJumps(st, etc, now, fixed, env, P, d, sort);
    }
  }

  // ---- main results --------------------------------------------------------------------------------

  lemma CompileGives(st: State, etc: Defaults, now: int, fixed: FixedRules, sort: Sorting)
    requires CompileState(st, etc, now, fixed, sort).Ok? && !st.panic
    ensures !CompileFails(st, now) && Compiled(CompileState(st, etc, now, fixed, sort).value, st, etc, now, fixed, sort)
  {
  }

  lemma PanicVerdict(st: State, etc: Defaults, now: int, fixed: FixedRules, d: Direction, env: Env, P: Program)
    requires st.panic && env.pkt.Valid() && P.chains(Base(d)) == []
    ensures Traverse(env, P, d, BasePolicy(st, etc, d), 3) == Some(Drop)
  {
  }

  lemma TraverseSettled(env: Env, P: Program, d: Direction, policy: Verdict, rules: seq<seq<Expr>>)
    requires env.pkt.Valid() && P.chains(Base(d)) == rules
    ensures Traverse(env, P, d, policy, 3) == Settled(Eval(env, P, Base(d), rules, St(0, []), 3), policy)
  {
  }

  lemma BaseChains(st: State, etc: Defaults, now: int, fixed: FixedRules, P: Program, d: Direction, sort: Sorting)
    requires Compiled(P, st, etc, now, fixed, sort) && !st.panic
    ensures P.chains(Base(d)) == BaseChain(d, EffectiveIpv6(st, etc))
    ensures BasePolicy(st, etc, d) == BasePolicyFor(EffectivePolicies(st, etc).For(d))
  {
  }

  lemma UserVerdicts(st: State, etc: Defaults, now: int, fixed: FixedRules, d: Direction, env: Env, P: Program, sort: Sorting)
    requires env.pkt.Valid() && st.Valid() && !CompileFails(st, now) && !st.panic && Compiled(P, st, etc, now, fixed, sort)
    ensures Traverse(env, P, d, BasePolicy(st, etc, d), 3)
      == Some(Reference(st, etc, now, fixed, d, env, CompiledSets(P.sets), Banned(P.sets, env.pkt)))
  {
    BaseChains(st, etc, now, fixed, P, d, sort);
    TraverseSettled(env, P, d, BasePolicy(st, etc, d), BaseChain(d, EffectiveIpv6(st, etc)));
    EvalBase(st, etc, now, fixed, env, P, d, sort);
  }

  /** Whenever compilation succeeds, running a base chain gives the reference verdict, and
      three levels of jumps are enough. */
  lemma CompiledVerdict(st: State, etc: Defaults, now: int, fixed: FixedRules, d: Direction, env: Env, sort: Sorting)
    requires st.Valid() && env.pkt.Valid() && CompileState(st, etc, now, fixed, sort).Ok?
    ensures var P := CompileState(st, etc, now, fixed, sort).value;
      Traverse(env, P, d, BasePolicy(st, etc, d), 3)
      == Some(Reference(st, etc, now, fixed, d, env, CompiledSets(P.sets), Banned(P.sets, env.pkt)))
  {
    var P := CompileState(st, etc, now, fixed, sort).value;
    if st.panic {
      PanicVerdict(st, etc, now, fixed, d, env, P);
    } else {
      CompileGives(st, etc, now, fixed, sort);
      UserVerdicts(st, etc, now, fixed, d, env, P, sort);
    }
  }

  lemma VerdictOf(st: State, etc: Defaults, now: int, fixed: FixedRules, d: Direction, env: Env, P: Program, sort: Sorting)
    requires st.Valid() && env.pkt.Valid() && CompileState(st, etc, now, fixed, sort) == Ok(P)
    ensures var sets := FinalAlloc(st, now, sort).sets;
      Traverse(env, P, d, BasePolicy(st, etc, d), 3)
      == Some(Reference(st, etc, now, fixed, d, env, CompiledSets(sets), Banned(sets, env.pkt)))
  {
    CompiledVerdict(st, etc, now, fixed, d, env, sort);
  }

  /** The same for the step machine: it halts, with that verdict. */
  lemma CompiledMachineHalts(st: State, etc: Defaults, now: int, fixed: FixedRules, d: Direction, env: Env, sort: Sorting) returns (n: nat, end: St)
    requires st.Valid() && env.pkt.Valid() && CompileState(st, etc, now, fixed, sort).Ok?
    ensures var P := CompileState(st, etc, now, fixed, sort).value;
      Steps(env, P, BasePolicy(st, etc, d), Running([Frame(Base(d), P.chains(Base(d)))], St(0, [])), n)
      == Halted(Reference(st, etc, now, fixed, d, env, CompiledSets(P.sets), Banned(P.sets, env.pkt)), end)
  {
    var P := CompileState(st, etc, now, fixed, sort).value;
    CompiledVerdict(st, etc, now, fixed, d, env, sort);
    n, end := TraverseIsRun(env, P, d, BasePolicy(st, etc, d), 3);
  }
}
