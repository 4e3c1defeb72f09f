/** Running the compiled chains gives the verdict of the model: the fixed rules, then the
    first matching user rule, then the policy. */
module CompileFixed {
  import opened Bytes
  import opened Cidr
  import opened Intervals
  import opened Rules
  import opened Nft
  import opened Store
  import opened Compile
  import opened CompileMatch
  import opened ChainEval
  import opened CompileUser
  import opened AddressSets

  // ---- the reference ------------------------------------------------------------------

  predicate ViaLoopback(d: Direction, p: Packet) {
    (d == In && p.iif == LOOPBACK) || (d == Out && p.oif == LOOPBACK)
  }

  predicate FastPath(p: Packet) {
    p.ct == CtEstablished || p.ct == CtRelated
  }

  predicate ForUs(p: Packet) {
    p.addrType == RTN_LOCAL || p.addrType == RTN_MULTICAST || p.addrType == RTN_BROADCAST
  }

  /** The built-in rules in front of the user rules. Bans come before conntrack. */
  function BeforeVerdict(d: Direction, fixed: FixedRules, env: Env, banned: bool): Option<Verdict> {
    var p := env.pkt;
    if ViaLoopback(d, p) then Some(Accept)
    else if p.v6 && p.rh0 then Some(Drop)
    else if d != Out && banned then Some(Drop)
    else if FastPath(p) then Some(Accept)
    else match d
      case In =>
        if SomeHolds(env, fixed.early) then Some(Accept)
        else if p.ct == CtInvalid then Some(Drop)
        else if SomeHolds(env, fixed.icmpIn) then Some(Accept)
        else if !p.v6 && !ForUs(p) then Some(Drop)
        else if SomeHolds(env, fixed.multicast) then Some(Accept)
        else None
      case Out => if SomeHolds(env, fixed.icmpOut) then Some(Accept) else None
      case Routed => if SomeHolds(env, fixed.icmpForward) then Some(Accept) else None
  }

  /** What the first active matching rule of the packet's family and direction does. */
  function UserVerdict(st: State, now: int, d: Direction, env: Env, sets: SetFn): Option<Verdict>
    requires ValidRules(st.rules4) && ValidRules(st.rules6)
  {
    match Deciding(st.rules4, st.rules6, now, d, sets, env.pkt)
    case Some(r) => Some(RuleVerdict(r, env.pkt.v6, env))
    case None => None
  }

  function Reference(st: State, etc: Defaults, now: int, fixed: FixedRules, d: Direction, env: Env, sets: SetFn, banned: bool): Verdict
    requires ValidRules(st.rules4) && ValidRules(st.rules6)
  {
    if st.panic then Drop
    else if !EffectiveIpv6(st, etc) && env.pkt.v6 then (if ViaLoopback(d, env.pkt) then Accept else Drop)
    else match BeforeVerdict(d, fixed, env, banned)
      case Some(v) => v
      case None =>
        match UserVerdict(st, now, d, env, sets)
        case Some(v) => v
        case None => PolicyVerdict(EffectivePolicies(st, etc).For(d))
  }

  /** Whether the compiled ban sets have the packet's source. */
  predicate Banned(sets: map<SetKey, SetBody>, p: Packet) {
    ThreatBans(p.v6) in sets && SetHas(sets[ThreatBans(p.v6)], p.src)
  }

  // ---- before chains ----------------------------------------------------------------------

  lemma TestsRoutingHeader(env: Env, sets: map<SetKey, SetBody>)
    requires env.pkt.Valid()
    ensures Tests(env, sets, FamilyExprs(true) + [RoutingType, Cmp(true, [0])], env.pkt.v6 && env.pkt.rh0)
  {
    TestsFamily(env, sets, true);
    assert Tests(env, sets, [RoutingType, Cmp(true, [0])], env.pkt.v6 && env.pkt.rh0) by {
      forall here, st, reg ensures
        var f := Exec(env, sets, here, [RoutingType, Cmp(true, [0])], st, reg);
        if env.pkt.v6 && env.pkt.rh0 then f.Go? && f.st == st else f == Break(st)
      {
        ExecTwo(env, sets, here, RoutingType, Cmp(true, [0]), st, reg);
      }
    }
    TestsConcat(env, sets, FamilyExprs(true), [RoutingType, Cmp(true, [0])], env.pkt.v6, env.pkt.v6 && env.pkt.rh0);
  }

  lemma EvalRoutingHeader(env: Env, P: Program, here: Chain, rest: seq<seq<Expr>>, st: St, depth: nat)
    requires env.pkt.Valid()
    ensures Eval(env, P, here, [RoutingHeaderRule()] + rest, st, depth)
         == if env.pkt.v6 && env.pkt.rh0 then Decided(Drop, st) else Eval(env, P, here, rest, st, depth)
  {
    TestsRoutingHeader(env, P.sets);
    EvalVerdict(env, P, here, FamilyExprs(true) + [RoutingType, Cmp(true, [0])], env.pkt.v6 && env.pkt.rh0, Drop, rest, st, depth);
  }

  lemma EvalLoopback(env: Env, P: Program, here: Chain, input: bool, rest: seq<seq<Expr>>, st: St, depth: nat)
    requires env.pkt.Valid()
    ensures Eval(env, P, here, [LoopbackRule(input)] + rest, st, depth)
         == if (if input then env.pkt.iif else env.pkt.oif) == LOOPBACK then Decided(Accept, st) else Eval(env, P, here, rest, st, depth)
  {
    var name := if input then env.pkt.iif else env.pkt.oif;
    TestsIface(env, P.sets, input, LOOPBACK);
    assert NameMatches(LOOPBACK, name) == (name == LOOPBACK);
    EvalVerdict(env, P, here, IfaceExprs(input, LOOPBACK), name == LOOPBACK, Accept, rest, st, depth);
  }

  lemma EvalEstablished(env: Env, P: Program, here: Chain, rest: seq<seq<Expr>>, st: St, depth: nat)
    requires env.pkt.Valid()
    ensures Eval(env, P, here, [EstablishedRule()] + rest, st, depth)
         == if FastPath(env.pkt) then Decided(Accept, st) else Eval(env, P, here, rest, st, depth)
  {
    TestsCt(env, P.sets, CT_EST_REL);
    CtBits(env.pkt.ct);
    EvalVerdict(env, P, here, CtExprs(CT_EST_REL), FastPath(env.pkt), Accept, rest, st, depth);
  }

  lemma TestsBan(env: Env, sets: map<SetKey, SetBody>, v6: bool)
    requires env.pkt.Valid()
    ensures Tests(env, sets, FamilyExprs(v6) + [AddrLoad(false, v6), Lookup(ThreatBans(v6))],
                  env.pkt.v6 == v6 && Banned(sets, env.pkt))
  {
    var look := [AddrLoad(false, v6), Lookup(ThreatBans(v6))];
    TestsFamily(env, sets, v6);
    if env.pkt.v6 == v6 {
      LoadAddr(env, sets, false);
      forall here, st, reg ensures
        var f := Exec(env, sets, here, look, st, reg);
        if Banned(sets, env.pkt) then f.Go? && f.st == st else f == Break(st)
      {
        ExecTwo(env, sets, here, AddrLoad(false, v6), Lookup(ThreatBans(v6)), st, reg);
      }
    }
    TestsConcat(env, sets, FamilyExprs(v6), look, env.pkt.v6 == v6, Banned(sets, env.pkt));
  }

  lemma EvalBans(env: Env, P: Program, here: Chain, rest: seq<seq<Expr>>, st: St, depth: nat)
    requires env.pkt.Valid()
    ensures Eval(env, P, here, BanRules() + rest, st, depth)
         == if Banned(P.sets, env.pkt) then Decided(Drop, st) else Eval(env, P, here, rest, st, depth)
  {
    var g4 := FamilyExprs(false) + [AddrLoad(false, false), Lookup(ThreatBans(false))];
    var g6 := FamilyExprs(true) + [AddrLoad(false, true), Lookup(ThreatBans(true))];
    TestsBan(env, P.sets, false);
    TestsBan(env, P.sets, true);
    assert BanRules() + rest == [g4 + [Counter, Decide(Drop)]] + ([g6 + [Counter, Decide(Drop)]] + rest);
    EvalVerdict(env, P, here, g4, !env.pkt.v6 && Banned(P.sets, env.pkt), Drop, [g6 + [Counter, Decide(Drop)]] + rest, st, depth);
    EvalVerdict(env, P, here, g6, env.pkt.v6 && Banned(P.sets, env.pkt), Drop, rest, st, depth);
  }

  /** Logging and then dropping INVALID packets. */
  lemma EvalInvalid(env: Env, P: Program, here: Chain, rest: seq<seq<Expr>>, st: St, depth: nat) returns (st': St)
    requires env.pkt.Valid() && depth > 0 && Quiet(P.chains(LogDeny))
    ensures Eval(env, P, here,
        [CtExprs(CT_INVALID) + [Counter, Jump(LogDeny)], CtExprs(CT_INVALID) + [Counter, Decide(Drop)]] + rest, st, depth)
      == if env.pkt.ct == CtInvalid then Decided(Drop, st') else Eval(env, P, here, rest, st, depth)
  {
    var m := CtExprs(CT_INVALID);
    var dropRule := [m + [Counter, Decide(Drop)]] + rest;
    TestsCt(env, P.sets, CT_INVALID);
    CtBits(env.pkt.ct);
    assert [m + [Counter, Jump(LogDeny)], m + [Counter, Decide(Drop)]] + rest == [m + [Counter, Jump(LogDeny)]] + dropRule;
    EvalJump(env, P, here, m, env.pkt.ct == CtInvalid, LogDeny, dropRule, st, depth);
    EvalQuiet(env, P, LogDeny, P.chains(LogDeny), st, depth - 1);
    st' := if env.pkt.ct == CtInvalid then Eval(env, P, LogDeny, P.chains(LogDeny), st, depth - 1).st else st;
    EvalVerdict(env, P, here, m, env.pkt.ct == CtInvalid, Drop, rest, st', depth);
  }

  lemma TestsFib(env: Env, sets: map<SetKey, SetBody>, t: Byte)
    requires env.pkt.Valid()
    ensures Tests(env, sets, FibExprs(t), env.pkt.addrType == t)
  {
    forall here, st, reg ensures
      var f := Exec(env, sets, here, FibExprs(t), st, reg);
      if env.pkt.addrType == t then f.Go? && f.st == st else f == Break(st)
    {
      ExecTwo(env, sets, here, FibAddrType, Cmp(true, [t, 0, 0, 0]), st, reg);
      assert [env.pkt.addrType, 0, 0, 0][0] == env.pkt.addrType && [t, 0, 0, 0][0] == t;
    }
  }

  /** The not-local chain returns for traffic addressed to this host and drops the rest. */
  lemma EvalNotLocal(env: Env, P: Program, st: St, depth: nat) returns (st': St)
    requires env.pkt.Valid() && depth > 0 && Quiet(P.chains(LogDeny))
    ensures Eval(env, P, NotLocal, NotLocalChain(), st, depth)
         == if ForUs(env.pkt) then Fell(st) else Decided(Drop, st')
  {
    var logRule, dropRule := [LIMIT3, Counter, Jump(LogDeny)], [[Counter, Decide(Drop)]];
    var t3 := [logRule] + dropRule;
    var t2 := [FibExprs(RTN_BROADCAST) + [Counter, Return]] + t3;
    var t1 := [FibExprs(RTN_MULTICAST) + [Counter, Return]] + t2;
    assert NotLocalChain() == [FibExprs(RTN_LOCAL) + [Counter, Return]] + t1;
    TestsFib(env, P.sets, RTN_LOCAL);
    TestsFib(env, P.sets, RTN_MULTICAST);
    TestsFib(env, P.sets, RTN_BROADCAST);
    EvalReturn(env, P, NotLocal, FibExprs(RTN_LOCAL), env.pkt.addrType == RTN_LOCAL, t1, st, depth);
    EvalReturn(env, P, NotLocal, FibExprs(RTN_MULTICAST), env.pkt.addrType == RTN_MULTICAST, t2, st, depth);
    EvalReturn(env, P, NotLocal, FibExprs(RTN_BROADCAST), env.pkt.addrType == RTN_BROADCAST, t3, st, depth);
    st' := EvalLogThen(env, P, dropRule, st, depth);
    EvalPlainVerdict(env, P, NotLocal, Drop, [], st', depth);
    assert [[Counter, Decide(Drop)]] + [] == dropRule;
  }

  /** A rate-limited detour to a quiet chain comes back. */
  lemma EvalLogThen(env: Env, P: Program, rest: seq<seq<Expr>>, st: St, depth: nat) returns (st': St)
    requires env.pkt.Valid() && depth > 0 && Quiet(P.chains(LogDeny))
    ensures Eval(env, P, NotLocal, [[LIMIT3, Counter, Jump(LogDeny)]] + rest, st, depth)
         == Eval(env, P, NotLocal, rest, st', depth)
  {
    var r := [LIMIT3, Counter, Jump(LogDeny)];
    assert ([r] + rest)[1..] == rest;
    ExecThree(env, P.sets, NotLocal, LIMIT3, Counter, Jump(LogDeny), st, []);
    var f := ExecOne(env, P.sets, NotLocal, LIMIT3, st, []);
    st' := f.st;
    if f.Go? {
      ExecAct(env, P.sets, NotLocal, Jump(LogDeny), f.st, f.reg);
      assert Exec(env, P.sets, NotLocal, [Jump(LogDeny)], f.st, f.reg) == Act(Call(LogDeny), f.st);
      EvalQuiet(env, P, LogDeny, P.chains(LogDeny), f.st, depth - 1);
      st' := Eval(env, P, LogDeny, P.chains(LogDeny), f.st, depth - 1).st;
    }
  }

  /** What the fixed chains of a compiled program look like. */
  ghost predicate FixedContext(P: Program) {
    && Quiet(P.chains(LogDeny)) && P.chains(NotLocal) == NotLocalChain() && P.chains(UserEgress) == []
  }

  /** The outcome of a chain that either decides as `v` says or falls through. */
  predicate Agrees(o: Outcome, v: Option<Verdict>) {
    match v
    case Some(w) => o.Decided? && o.v == w
    case None => o.Fell?
  }

  lemma EvalInputTail(env: Env, P: Program, fixed: FixedRules, st: St, depth: nat)
    requires env.pkt.Valid() && depth > 1 && FixedContext(P)
    ensures Agrees(
      Eval(env, P, Before(In), [FamilyExprs(false) + [Counter, Jump(NotLocal)]] + OpaqueAccepts(fixed.multicast), st, depth),
      if !env.pkt.v6 && !ForUs(env.pkt) then Some(Drop)
      else if SomeHolds(env, fixed.multicast) then Some(Accept) else None)
  {
    var tail := OpaqueAccepts(fixed.multicast);
    TestsFamily(env, P.sets, false);
    EvalJump(env, P, Before(In), FamilyExprs(false), !env.pkt.v6, NotLocal, tail, st, depth);
    var _ := EvalNotLocal(env, P, st, depth - 1);
    EvalOpaqueAccepts(env, P, Before(In), fixed.multicast, [], st, depth);
    assert tail + [] == tail;
  }

  lemma EvalInputMiddle(env: Env, P: Program, fixed: FixedRules, st: St, depth: nat)
    requires env.pkt.Valid() && depth > 1 && FixedContext(P)
    ensures Agrees(
      Eval(env, P, Before(In), OpaqueAccepts(fixed.early)
        + ([CtExprs(CT_INVALID) + [Counter, Jump(LogDeny)], CtExprs(CT_INVALID) + [Counter, Decide(Drop)]]
        + (OpaqueAccepts(fixed.icmpIn)
        + ([FamilyExprs(false) + [Counter, Jump(NotLocal)]] + OpaqueAccepts(fixed.multicast)))), st, depth),
      if SomeHolds(env, fixed.early) then Some(Accept)
      else if env.pkt.ct == CtInvalid then Some(Drop)
      else if SomeHolds(env, fixed.icmpIn) then Some(Accept)
      else if !env.pkt.v6 && !ForUs(env.pkt) then Some(Drop)
      else if SomeHolds(env, fixed.multicast) then Some(Accept) else None)
  {
    var t3 := [FamilyExprs(false) + [Counter, Jump(NotLocal)]] + OpaqueAccepts(fixed.multicast);
    var t2 := OpaqueAccepts(fixed.icmpIn) + t3;
    var t1 := [CtExprs(CT_INVALID) + [Counter, Jump(LogDeny)], CtExprs(CT_INVALID) + [Counter, Decide(Drop)]] + t2;
    EvalOpaqueAccepts(env, P, Before(In), fixed.early, t1, st, depth);
    var _ := EvalInvalid(env, P, Before(In), t2, st, depth);
    EvalOpaqueAccepts(env, P, Before(In), fixed.icmpIn, t3, st, depth);
    EvalInputTail(env, P, fixed, st, depth);
  }

  lemma InputShape(fixed: FixedRules)
    ensures BeforeChain(In, fixed) == [LoopbackRule(true)] + ([RoutingHeaderRule()] + (BanRules() + ([EstablishedRule()]
      + (OpaqueAccepts(fixed.early)
        + ([CtExprs(CT_INVALID) + [Counter, Jump(LogDeny)], CtExprs(CT_INVALID) + [Counter, Decide(Drop)]]
        + (OpaqueAccepts(fixed.icmpIn)
        + ([FamilyExprs(false) + [Counter, Jump(NotLocal)]] + OpaqueAccepts(fixed.multicast))))))))
  {
  }

  lemma EvalBefore(env: Env, P: Program, d: Direction, fixed: FixedRules, st: St, depth: nat)
    requires env.pkt.Valid() && depth > 1 && FixedContext(P)
    ensures Agrees(Eval(env, P, Before(d), BeforeChain(d, fixed), st, depth),
                   BeforeVerdict(d, fixed, env, Banned(P.sets, env.pkt)))
  {
    match d {
      case In => EvalBeforeIn(env, P, fixed, st, depth);
      case Out => EvalBeforeOut(env, P, fixed, st, depth);
      case Routed => EvalBeforeRouted(env, P, fixed, st, depth);
    }
  }

  lemma EvalBeforeIn(env: Env, P: Program, fixed: FixedRules, st: St, depth: nat)
    requires env.pkt.Valid() && depth > 1 && FixedContext(P)
    ensures Agrees(Eval(env, P, Before(In), BeforeChain(In, fixed), st, depth),
                   BeforeVerdict(In, fixed, env, Banned(P.sets, env.pkt)))
  {
    var t4 := OpaqueAccepts(fixed.early)
        + ([CtExprs(CT_INVALID) + [Counter, Jump(LogDeny)], CtExprs(CT_INVALID) + [Counter, Decide(Drop)]]
        + (OpaqueAccepts(fixed.icmpIn)
        + ([FamilyExprs(false) + [Counter, Jump(NotLocal)]] + OpaqueAccepts(fixed.multicast))));
    var t3 := [EstablishedRule()] + t4;
    var t2 := BanRules() + t3;
    var t1 := [RoutingHeaderRule()] + t2;
    InputShape(fixed);
    EvalLoopback(env, P, Before(In), true, t1, st, depth);
    EvalRoutingHeader(env, P, Before(In), t2, st, depth);
    EvalBans(env, P, Before(In), t3, st, depth);
    EvalEstablished(env, P, Before(In), t4, st, depth);
    EvalInputMiddle(env, P, fixed, st, depth);
  }

  lemma EvalBeforeOut(env: Env, P: Program, fixed: FixedRules, st: St, depth: nat)
    requires env.pkt.Valid() && depth > 1 && FixedContext(P)
    ensures Agrees(Eval(env, P, Before(Out), BeforeChain(Out, fixed), st, depth),
                   BeforeVerdict(Out, fixed, env, Banned(P.sets, env.pkt)))
  {
    var t4 := [[Counter, Jump(UserEgress)]];
    var t3 := OpaqueAccepts(fixed.icmpOut) + t4;
    var t2 := [EstablishedRule()] + t3;
    var t1 := [RoutingHeaderRule()] + t2;
    assert BeforeChain(Out, fixed) == [LoopbackRule(false)] + t1;
    EvalLoopback(env, P, Before(Out), false, t1, st, depth);
    EvalRoutingHeader(env, P, Before(Out), t2, st, depth);
    EvalEstablished(env, P, Before(Out), t3, st, depth);
    EvalOpaqueAccepts(env, P, Before(Out), fixed.icmpOut, t4, st, depth);
    assert t4 == [[Counter, Jump(UserEgress)]] + [];
    EvalPlainJump(env, P, Before(Out), UserEgress, [], st, depth);
  }

  lemma EvalBeforeRouted(env: Env, P: Program, fixed: FixedRules, st: St, depth: nat)
    requires env.pkt.Valid() && depth > 1 && FixedContext(P)
    ensures Agrees(Eval(env, P, Before(Routed), BeforeChain(Routed, fixed), st, depth),
                   BeforeVerdict(Routed, fixed, env, Banned(P.sets, env.pkt)))
  {
    var t3 := OpaqueAccepts(fixed.icmpForward);
    var t2 := [EstablishedRule()] + t3;
    var t1 := BanRules() + t2;
    assert BeforeChain(Routed, fixed) == [RoutingHeaderRule()] + t1;
    EvalRoutingHeader(env, P, Before(Routed), t1, st, depth);
    EvalBans(env, P, Before(Routed), t2, st, depth);
    EvalEstablished(env, P, Before(Routed), t3, st, depth);
    EvalOpaqueAccepts(env, P, Before(Routed), fixed.icmpForward, [], st, depth);
    assert t3 + [] == t3;
  }
}
