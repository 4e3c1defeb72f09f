/** Per-family chain policies emulated under one global policy, and whole imports. */
module IptPolicy {
  import opened Rules
  import opened Store
  import opened Iptables
  import opened IptSave
  import opened Merge
  import opened IptImport
  import opened FirstMatch

  /** Deny is stricter than reject, reject stricter than allow. */
  function Rank(p: PolicyWord): nat {
    match p
    case PolicyDeny => 3
    case PolicyReject => 2
    case _ => 1
  }

  /** Unknown stored words count as deny, which is what they compile to. */
  function Effective(p: PolicyWord): PolicyWord {
    if p == PolicyOther then PolicyDeny else p
  }

  function PolicyAction(p: PolicyWord): Action {
    match p
    case PolicyAllow => Allow
    case PolicyReject => Reject
    case _ => Deny
  }

  /** First match over the list, then the policy. */
  function Verdict(rules: seq<Rule>, v6: bool, d: Direction, policy: PolicyWord, now: int, sets: SetFn, p: Packet): Action
    requires ValidRules(rules)
  {
    match Decide(rules, v6, d, now, sets, p)
    case Some(a) => a
    case None => PolicyAction(policy)
  }

  function PolicyText(p: PolicyWord): string {
    match p
    case PolicyAllow => "allow"
    case PolicyReject => "reject"
    case _ => "deny"
  }

  /** The unconditional rule that stands for a family's own policy. */
  function Catchall(v6: bool, d: Direction, policy: PolicyWord, id: string): Rule {
    Rule(id, PolicyAction(policy), d, NoRouteDir, [], [], AnyProto, None, AddrSpec(AnyIp, [], ""), AddrSpec(AnyIp, [], ""),
         "", "", LogNone, "iptables-persistent " + ChainName(d) + " chain policy " + PolicyText(policy), 0, false, v6)
  }

  /** Position of the last rule of a direction. */
  function LastOfDir(rules: seq<Rule>, d: Direction): (i: Option<nat>)
    ensures i.Some? ==> i.value < |rules| && rules[i.value].dir == d
    ensures i.Some? ==> forall j :: i.value < j < |rules| ==> rules[j].dir != d
    ensures i.None? ==> forall j :: 0 <= j < |rules| ==> rules[j].dir != d
  {
    if rules == [] then None
    else if rules[|rules| - 1].dir == d then Some(|rules| - 1)
    else
      var prefix := rules[..|rules| - 1];
      assert forall j :: 0 <= j < |prefix| ==> prefix[j] == rules[j];
      LastOfDir(prefix, d)
  }

  /** The last rule of the direction already is this catchall. */
  predicate HasCatchall(rules: seq<Rule>, v6: bool, d: Direction, policy: PolicyWord) {
    LastOfDir(rules, d).Some? && Match(rules[LastOfDir(rules, d).value], Catchall(v6, d, policy, "")) == MatchExact
  }

  function WithCatchall(rules: seq<Rule>, v6: bool, d: Direction, policy: PolicyWord, id: string): seq<Rule> {
    if HasCatchall(rules, v6, d, policy) then rules else rules + [Catchall(v6, d, policy, id)]
  }

  method AppendPolicyCatchall(rules: seq<Rule>, v6: bool, d: Direction, policy: PolicyWord, id: string) returns (out: seq<Rule>)
    ensures out == WithCatchall(rules, v6, d, policy, id)
  {
    var nr := Catchall(v6, d, policy, "");
    for i := |rules| downto 0
      invariant forall j :: i <= j < |rules| ==> rules[j].dir != d
    {
      if rules[i].dir == d {
        assert LastOfDir(rules, d) == Some(i);
        if Match(rules[i], nr) == MatchExact {
          return rules;
        }
        return rules + [nr.(id := id)];
      }
    }
    out := rules + [nr.(id := id)];
  }

  /** A catch-all matches everything, is neither disabled nor logged, and names the chain and the
      policy it stands for. */
  lemma CatchallReads(v6: bool, d: Direction, policy: PolicyWord, id: string)
    requires policy == PolicyAllow || policy == PolicyDeny || policy == PolicyReject
    ensures var r := Catchall(v6, d, policy, id);
      && r.id == id && r.dir == d && r.v6 == v6 && r.log == LogNone && !r.disabled && r.expiresAt == 0
      && r.action == (match policy case PolicyAllow => Allow case PolicyReject => Reject case _ => Deny)
      && r.comment == "iptables-persistent " + (match d case In => "INPUT" case Out => "OUTPUT" case Routed => "FORWARD")
                      + " chain policy " + (match policy case PolicyAllow => "allow" case PolicyReject => "reject" case _ => "deny")
      && forall sets, p: Packet :: p.v6 == v6 && r.ValidAddrs() ==> Matches(r, v6, sets, p)
  {
  }

  // ---- what one catchall does -----------------------------------------------------------------

  /** A kept catchall is taken to be enabled and unexpired. */
  predicate KeptActive(rules: seq<Rule>, v6: bool, d: Direction, policy: PolicyWord, now: int) {
    HasCatchall(rules, v6, d, policy) ==> rules[LastOfDir(rules, d).value].Active(now)
  }

  lemma CatchallValid(v6: bool, d: Direction, policy: PolicyWord, id: string, now: int, sets: SetFn, p: Packet)
    requires p.v6 == v6
    ensures Catchall(v6, d, policy, id).ValidAddrs()
    ensures Hits(Catchall(v6, d, policy, id), v6, d, now, sets, p)
  {
  }

  lemma {:induction false} HitDecides(rules: seq<Rule>, i: nat, v6: bool, d: Direction, now: int, sets: SetFn, p: Packet)
    requires ValidRules(rules) && i < |rules| && Hits(rules[i], v6, d, now, sets, p)
    ensures Decide(rules, v6, d, now, sets, p).Some?
  {
    assert FirstHit(rules, v6, d, now, sets, p).Some?;
  }

  /** A kept catchall decides every packet of its family that gets to it. */
  lemma KeptDecides(rules: seq<Rule>, v6: bool, d: Direction, policy: PolicyWord, now: int, sets: SetFn, p: Packet)
    requires ValidRules(rules) && HasCatchall(rules, v6, d, policy) && KeptActive(rules, v6, d, policy, now) && p.v6 == v6
    ensures Decide(rules, v6, d, now, sets, p).Some?
  {
    var i := LastOfDir(rules, d).value;
    CatchallValid(v6, d, policy, "", now, sets, p);
    SameTupleSameMatches(rules[i], Catchall(v6, d, policy, ""), v6, sets, p);
    HitDecides(rules, i, v6, d, now, sets, p);
  }

  lemma AppendedDecides(rules: seq<Rule>, v6: bool, d: Direction, policy: PolicyWord, id: string,
                        d2: Direction, now: int, sets: SetFn, p: Packet)
    requires ValidRules(rules) && p.v6 == v6
    ensures var out := rules + [Catchall(v6, d, policy, id)];
      && ValidRules(out)
      && Decide(out, v6, d2, now, sets, p)
         == if Decide(rules, v6, d2, now, sets, p).Some? then Decide(rules, v6, d2, now, sets, p)
            else if d2 == d then Some(PolicyAction(policy)) else None
  {
    var c := Catchall(v6, d, policy, id);
    CatchallValid(v6, d, policy, id, now, sets, p);
    assert [c][1..] == [];
    DecideConcat(rules, [c], v6, d2, now, sets, p);
  }

  /** With its catchall in place, a family decides under any global policy as it did under its own;
      the other directions are left alone. */
  lemma CatchallEmulates(rules: seq<Rule>, v6: bool, d: Direction, policy: PolicyWord, id: string,
                         base: PolicyWord, now: int, sets: SetFn, p: Packet)
    requires ValidRules(rules) && p.v6 == v6 && KeptActive(rules, v6, d, policy, now)
    ensures var out := WithCatchall(rules, v6, d, policy, id);
      && ValidRules(out)
      && Verdict(out, v6, d, base, now, sets, p) == Verdict(rules, v6, d, policy, now, sets, p)
      && forall d2 :: d2 != d ==> Decide(out, v6, d2, now, sets, p) == Decide(rules, v6, d2, now, sets, p)
  {
    if HasCatchall(rules, v6, d, policy) {
      KeptDecides(rules, v6, d, policy, now, sets, p);
    } else {
      AppendedDecides(rules, v6, d, policy, id, d, now, sets, p);
      forall d2 | d2 != d
        ensures Decide(rules + [Catchall(v6, d, policy, id)], v6, d2, now, sets, p) == Decide(rules, v6, d2, now, sets, p)
      {
        AppendedDecides(rules, v6, d, policy, id, d2, now, sets, p);
      }
    }
  }

  // ---- the policy loop ------------------------------------------------------------------------

  /** The rule lists and policies an import works on. */
  datatype Lists = Lists(rules4: seq<Rule>, rules6: seq<Rule>, policies: Policies)

  function WithPolicy(p: Policies, d: Direction, w: PolicyWord): Policies {
    match d
    case In => p.(input := w)
    case Out => p.(output := w)
    case Routed => p.(forward := w)
  }

  /** A declared policy wins; otherwise the stored one stays in effect. */
  function FamilyPolicy(declared: Option<PolicyWord>, stored: PolicyWord): PolicyWord {
    if declared.Some? then declared.value else Effective(stored)
  }

  function Stricter(a: PolicyWord, b: PolicyWord): PolicyWord {
    if Rank(b) > Rank(a) then b else a
  }

  function Base(stored: PolicyWord, p4: Option<PolicyWord>, p6: Option<PolicyWord>, v6Enabled: bool): PolicyWord {
    if v6Enabled then Stricter(FamilyPolicy(p4, stored), FamilyPolicy(p6, stored)) else FamilyPolicy(p4, stored)
  }

  function Emulated(rules: seq<Rule>, v6: bool, d: Direction, eff: PolicyWord, base: PolicyWord, id: string): seq<Rule> {
    if eff == base then rules else WithCatchall(rules, v6, d, eff, id)
  }

  // ---- a kept catchall that is disabled or expired -----------------------------------------------

  lemma {:induction false} NoneHits(rules: seq<Rule>, v6: bool, d: Direction, now: int, sets: SetFn, p: Packet)
    requires ValidRules(rules) && forall i :: 0 <= i < |rules| ==> !Hits(rules[i], v6, d, now, sets, p)
    ensures Decide(rules, v6, d, now, sets, p) == None
  {
    assert FirstHit(rules, v6, d, now, sets, p).None?;
  }

  /** An inactive rule that is the last of its direction leaves the decision to those before it. */
  lemma InactiveLast(rules: seq<Rule>, v6: bool, d: Direction, now: int, sets: SetFn, p: Packet)
    requires ValidRules(rules) && LastOfDir(rules, d).Some? && !rules[LastOfDir(rules, d).value].Active(now)
    ensures var i := LastOfDir(rules, d).value;
      ValidRules(rules[..i]) && Decide(rules, v6, d, now, sets, p) == Decide(rules[..i], v6, d, now, sets, p)
  {
    var i := LastOfDir(rules, d).value;
    assert rules == rules[..i] + rules[i..];
    NoneHits(rules[i..], v6, d, now, sets, p);
    DecideConcat(rules[..i], rules[i..], v6, d, now, sets, p);
  }

  /** The rules decide every packet of the family. */
  ghost predicate DecidesAll(rules: seq<Rule>, v6: bool, d: Direction, now: int, sets: SetFn)
    requires ValidRules(rules)
  {
    forall p: Packet :: p.Valid() && p.v6 == v6 ==> Decide(rules, v6, d, now, sets, p).Some?
  }

  /** The family decides every packet under the global policy as its rules do under its own. */
  ghost predicate Emulates(out: seq<Rule>, base: PolicyWord, rules: seq<Rule>, eff: PolicyWord,
                           v6: bool, d: Direction, now: int, sets: SetFn)
    requires ValidRules(out) && ValidRules(rules)
  {
    forall p: Packet :: p.Valid() && p.v6 == v6 ==>
      Verdict(out, v6, d, base, now, sets, p) == Verdict(rules, v6, d, eff, now, sets, p)
  }

  /** A catchall that is in place keeps a new one out even when it is disabled or expired. So
      a family is emulated exactly if its policy acts like the global one, or its catchall is
      new or active, or the rules before the inactive one decide every packet anyway. */
  lemma EmulationIff(rules: seq<Rule>, v6: bool, d: Direction, eff: PolicyWord, base: PolicyWord, id: string,
                     now: int, sets: SetFn)
    requires ValidRules(rules)
    ensures var out := Emulated(rules, v6, d, eff, base, id);
      && ValidRules(out)
      && (Emulates(out, base, rules, eff, v6, d, now, sets)
          <==> || PolicyAction(eff) == PolicyAction(base)
               || !HasCatchall(rules, v6, d, eff)
               || rules[LastOfDir(rules, d).value].Active(now)
               || DecidesAll(rules[..LastOfDir(rules, d).value], v6, d, now, sets))
  {
    if PolicyAction(eff) != PolicyAction(base) && !KeptActive(rules, v6, d, eff, now) {
      KeptInactive(rules, v6, d, eff, base, now, sets);
    } else if eff == base || KeptActive(rules, v6, d, eff, now) {
      ActiveEmulates(rules, v6, d, eff, base, id, now, sets);
    }
  }

  lemma ActiveEmulates(rules: seq<Rule>, v6: bool, d: Direction, eff: PolicyWord, base: PolicyWord, id: string,
                       now: int, sets: SetFn)
    requires ValidRules(rules) && (eff == base || KeptActive(rules, v6, d, eff, now))
    ensures var out := Emulated(rules, v6, d, eff, base, id);
      ValidRules(out) && Emulates(out, base, rules, eff, v6, d, now, sets)
  {
    forall p: Packet | p.v6 == v6
      ensures var out := Emulated(rules, v6, d, eff, base, id);
        ValidRules(out) && Verdict(out, v6, d, base, now, sets, p) == Verdict(rules, v6, d, eff, now, sets, p)
    {
      if eff != base {
        CatchallEmulates(rules, v6, d, eff, id, base, now, sets, p);
      }
    }
    EmulatedValid(rules, v6, d, eff, base, id);
  }

  lemma EmulatedValid(rules: seq<Rule>, v6: bool, d: Direction, eff: PolicyWord, base: PolicyWord, id: string)
    requires ValidRules(rules)
    ensures ValidRules(Emulated(rules, v6, d, eff, base, id))
  {
  }

  lemma KeptInactive(rules: seq<Rule>, v6: bool, d: Direction, eff: PolicyWord, base: PolicyWord, now: int, sets: SetFn)
    requires ValidRules(rules) && PolicyAction(eff) != PolicyAction(base)
    requires HasCatchall(rules, v6, d, eff) && !rules[LastOfDir(rules, d).value].Active(now)
    ensures Emulates(rules, base, rules, eff, v6, d, now, sets)
      <==> DecidesAll(rules[..LastOfDir(rules, d).value], v6, d, now, sets)
  {
    var before := rules[..LastOfDir(rules, d).value];
    forall p: Packet | p.Valid() && p.v6 == v6
      ensures Verdict(rules, v6, d, base, now, sets, p) == Verdict(rules, v6, d, eff, now, sets, p)
        <==> Decide(before, v6, d, now, sets, p).Some?
    {
      InactiveLast(rules, v6, d, now, sets, p);
    }
  }

  /** A rule that names no interface, protocol, type, port, set or address. */
  predicate Unconditional(r: Rule) {
    && r.ifaceIn == [] && r.ifaceOut == [] && r.proto == AnyProto && r.icmpType.None?
    && r.src == AddrSpec(AnyIp, [], "") && r.dst == AddrSpec(AnyIp, [], "")
  }

  /** What an administrator can look for: with an active unconditional rule in front, the inactive
      catchall does no harm. */
  lemma UnconditionalEmulates(rules: seq<Rule>, v6: bool, d: Direction, eff: PolicyWord, base: PolicyWord, id: string,
                              now: int, sets: SetFn, i: nat)
    requires ValidRules(rules) && HasCatchall(rules, v6, d, eff) && i < LastOfDir(rules, d).value
    requires rules[i].Active(now) && rules[i].dir == d && Unconditional(rules[i])
    ensures var out := Emulated(rules, v6, d, eff, base, id);
      ValidRules(out) && Emulates(out, base, rules, eff, v6, d, now, sets)
  {
    var before := rules[..LastOfDir(rules, d).value];
    forall p: Packet | p.Valid() && p.v6 == v6 ensures Decide(before, v6, d, now, sets, p).Some? {
      assert Hits(before[i], v6, d, now, sets, p);
      HitDecides(before, i, v6, d, now, sets, p);
    }
    EmulationIff(rules, v6, d, eff, base, id, now, sets);
  }

  /** Imported once with IPv4 accepting and IPv6 dropping, then the accept rule disabled and
      the same dump imported again: IPv4 is denied although its own policy is to accept. */
  lemma DisabledCatchallDenies(id: string, ids: Draws, now: int, sets: SetFn, p: Packet)
    requires !p.v6
    ensures var l := Lists([Catchall(false, In, PolicyAllow, id).(disabled := true)], [], Policies(PolicyDeny, PolicyAllow, PolicyDeny));
      var out := OneChain(l, In, Some(PolicyAllow), Some(PolicyDeny), true, ids);
      && ValidRules(l.rules4) && ValidRules(out.rules4)
      && Verdict(l.rules4, false, In, PolicyAllow, now, sets, p) == Allow
      && Verdict(out.rules4, false, In, out.policies.For(In), now, sets, p) == Deny
  {
    var c := Catchall(false, In, PolicyAllow, id).(disabled := true);
    var rules := [c];
    assert LastOfDir(rules, In) == Some(0);
    assert Match(c, Catchall(false, In, PolicyAllow, "")) == MatchExact;
    assert !Hits(rules[0], false, In, now, sets, p);
    NoneHits(rules, false, In, now, sets, p);
  }

  /** The ids NewID draws: for the appended rules of both families and for the catchalls. */
  datatype Draws = Draws(merge4: nat -> string, merge6: nat -> string, catchall: (Direction, bool) -> string)

  function OneChain(l: Lists, d: Direction, p4: Option<PolicyWord>, p6: Option<PolicyWord>, v6Enabled: bool, ids: Draws): Lists {
    var stored := l.policies.For(d);
    var base := Base(stored, p4, p6, v6Enabled);
    Lists(
      Emulated(l.rules4, false, d, FamilyPolicy(p4, stored), base, ids.catchall(d, false)),
      if v6Enabled then Emulated(l.rules6, true, d, FamilyPolicy(p6, stored), base, ids.catchall(d, true)) else l.rules6,
      WithPolicy(l.policies, d, base))
  }

  function ThreeChains(l: Lists, s4: Stream, s6: Stream, v6Enabled: bool, ids: Draws): Lists {
    var l1 := OneChain(l, In, s4.input, s6.input, v6Enabled, ids);
    var l2 := OneChain(l1, Out, s4.output, s6.output, v6Enabled, ids);
    OneChain(l2, Routed, s4.forward, s6.forward, v6Enabled, ids)
  }

  function Family(l: Lists, v6: bool): seq<Rule> {
    if v6 then l.rules6 else l.rules4
  }

  ghost predicate KeptActiveAll(rules: seq<Rule>, v6: bool, now: int) {
    forall d, policy :: KeptActive(rules, v6, d, policy, now)
  }

  lemma LastOfDirSnoc(rules: seq<Rule>, r: Rule, d: Direction)
    ensures LastOfDir(rules + [r], d) == if r.dir == d then Some(|rules|) else LastOfDir(rules, d)
  {
    assert (rules + [r])[..|rules|] == rules;
  }

  /** An appended catchall is the last rule of its direction and of no other. */
  lemma CatchallLast(rules: seq<Rule>, v6: bool, d: Direction, policy: PolicyWord, id: string, now: int)
    requires KeptActiveAll(rules, v6, now)
    ensures var out := WithCatchall(rules, v6, d, policy, id);
      && HasCatchall(out, v6, d, policy) && KeptActiveAll(out, v6, now)
      && forall d2, w :: d2 != d ==> (HasCatchall(out, v6, d2, w) <==> HasCatchall(rules, v6, d2, w))
  {
    if !HasCatchall(rules, v6, d, policy) {
      var c := Catchall(v6, d, policy, id);
      var out := rules + [c];
      forall d2: Direction ensures LastOfDir(out, d2) == if d2 == d then Some(|rules|) else LastOfDir(rules, d2) {
        LastOfDirSnoc(rules, c, d2);
      }
      forall d2, w ensures KeptActive(out, v6, d2, w, now) {
        assert KeptActive(rules, v6, d2, w, now);
      }
    }
  }

  /** One pass of the policy loop over one family. */
  lemma EmulatedExact(rules: seq<Rule>, v6: bool, d: Direction, eff: PolicyWord, base: PolicyWord, id: string,
                      now: int, sets: SetFn, p: Packet)
    requires ValidRules(rules) && KeptActiveAll(rules, v6, now) && p.v6 == v6
    ensures var out := Emulated(rules, v6, d, eff, base, id);
      && ValidRules(out) && KeptActiveAll(out, v6, now)
      && Verdict(out, v6, d, base, now, sets, p) == Verdict(rules, v6, d, eff, now, sets, p)
      && forall d2 :: d2 != d ==> Decide(out, v6, d2, now, sets, p) == Decide(rules, v6, d2, now, sets, p)
  {
    if eff != base {
      assert KeptActive(rules, v6, d, eff, now);
      CatchallEmulates(rules, v6, d, eff, id, base, now, sets, p);
      CatchallLast(rules, v6, d, eff, id, now);
    }
  }

  ghost predicate FamilyOk(l: Lists, v6: bool, now: int) {
    ValidRules(Family(l, v6)) && KeptActiveAll(Family(l, v6), v6, now)
  }

  lemma OneChainExact(l: Lists, d: Direction, p4: Option<PolicyWord>, p6: Option<PolicyWord>, v6Enabled: bool, ids: Draws,
                      v6: bool, now: int, sets: SetFn, p: Packet)
    requires FamilyOk(l, v6, now) && p.v6 == v6 && (v6 ==> v6Enabled)
    ensures var out := OneChain(l, d, p4, p6, v6Enabled, ids);
      && FamilyOk(out, v6, now)
      && Verdict(Family(out, v6), v6, d, out.policies.For(d), now, sets, p)
         == Verdict(Family(l, v6), v6, d, FamilyPolicy(if v6 then p6 else p4, l.policies.For(d)), now, sets, p)
      && forall d2 :: d2 != d ==>
           && out.policies.For(d2) == l.policies.For(d2)
           && Decide(Family(out, v6), v6, d2, now, sets, p) == Decide(Family(l, v6), v6, d2, now, sets, p)
  {
    var stored := l.policies.For(d);
    EmulatedExact(Family(l, v6), v6, d, FamilyPolicy(if v6 then p6 else p4, stored), Base(stored, p4, p6, v6Enabled),
                  ids.catchall(d, v6), now, sets, p);
  }

  /** Policy emulation: for any prior policies and any mix of declared, undeclared and missing
      chains, each enabled family decides every packet under the new global policy as its
      rules did under the family's own policy. */
  lemma PolicyEmulation(l: Lists, s4: Stream, s6: Stream, v6Enabled: bool, ids: Draws,
                        v6: bool, d: Direction, now: int, sets: SetFn, p: Packet)
    requires FamilyOk(l, v6, now) && p.v6 == v6 && (v6 ==> v6Enabled)
    ensures var out := ThreeChains(l, s4, s6, v6Enabled, ids);
      && ValidRules(Family(out, v6))
      && Verdict(Family(out, v6), v6, d, out.policies.For(d), now, sets, p)
         == Verdict(Family(l, v6), v6, d, FamilyPolicy((if v6 then s6 else s4).For(d), l.policies.For(d)), now, sets, p)
  {
    var l1 := OneChain(l, In, s4.input, s6.input, v6Enabled, ids);
    var l2 := OneChain(l1, Out, s4.output, s6.output, v6Enabled, ids);
    OneChainExact(l, In, s4.input, s6.input, v6Enabled, ids, v6, now, sets, p);
    OneChainExact(l1, Out, s4.output, s6.output, v6Enabled, ids, v6, now, sets, p);
    OneChainExact(l2, Routed, s4.forward, s6.forward, v6Enabled, ids, v6, now, sets, p);
  }

  // ---- a second pass ----------------------------------------------------------------------------

  /** The chain needs neither a new policy nor another catchall. */
  ghost predicate ChainSettled(l: Lists, d: Direction, p4: Option<PolicyWord>, p6: Option<PolicyWord>, v6Enabled: bool) {
    var stored := l.policies.For(d);
    && Base(stored, p4, p6, v6Enabled) == stored
    && (FamilyPolicy(p4, stored) == stored || HasCatchall(l.rules4, false, d, FamilyPolicy(p4, stored)))
    && (v6Enabled ==> FamilyPolicy(p6, stored) == stored || HasCatchall(l.rules6, true, d, FamilyPolicy(p6, stored)))
  }

  lemma SettledChain(l: Lists, d: Direction, p4: Option<PolicyWord>, p6: Option<PolicyWord>, v6Enabled: bool, ids: Draws)
    requires ChainSettled(l, d, p4, p6, v6Enabled)
    ensures OneChain(l, d, p4, p6, v6Enabled, ids) == l
  {
  }

  /** Stored words are declared policies: never the unknown one. */
  ghost predicate Known(p4: Option<PolicyWord>, p6: Option<PolicyWord>) {
    p4 != Some(PolicyOther) && p6 != Some(PolicyOther)
  }

  lemma BaseSettled(stored: PolicyWord, p4: Option<PolicyWord>, p6: Option<PolicyWord>, v6Enabled: bool)
    requires Known(p4, p6)
    ensures var base := Base(stored, p4, p6, v6Enabled);
      && Base(base, p4, p6, v6Enabled) == base
      && (FamilyPolicy(p4, base) == base || FamilyPolicy(p4, base) == FamilyPolicy(p4, stored))
      && (FamilyPolicy(p6, base) == base || FamilyPolicy(p6, base) == FamilyPolicy(p6, stored))
  {
  }

  lemma CatchallItself(v6: bool, d: Direction, policy: PolicyWord, id: string)
    ensures Match(Catchall(v6, d, policy, id), Catchall(v6, d, policy, "")) == MatchExact
  {
  }

  lemma CatchallPresent(rules: seq<Rule>, v6: bool, d: Direction, policy: PolicyWord, id: string)
    ensures HasCatchall(WithCatchall(rules, v6, d, policy, id), v6, d, policy)
  {
    if !HasCatchall(rules, v6, d, policy) {
      LastOfDirSnoc(rules, Catchall(v6, d, policy, id), d);
      CatchallItself(v6, d, policy, id);
    }
  }

  lemma CatchallElsewhere(rules: seq<Rule>, v6: bool, d: Direction, policy: PolicyWord, id: string, d2: Direction, w: PolicyWord)
    requires d2 != d
    ensures HasCatchall(WithCatchall(rules, v6, d, policy, id), v6, d2, w) <==> HasCatchall(rules, v6, d2, w)
  {
    if !HasCatchall(rules, v6, d, policy) {
      LastOfDirSnoc(rules, Catchall(v6, d, policy, id), d2);
    }
  }

  lemma OneChainSettles(l: Lists, d: Direction, p4: Option<PolicyWord>, p6: Option<PolicyWord>, v6Enabled: bool, ids: Draws)
    requires Known(p4, p6)
    ensures ChainSettled(OneChain(l, d, p4, p6, v6Enabled, ids), d, p4, p6, v6Enabled)
  {
    var stored := l.policies.For(d);
    BaseSettled(stored, p4, p6, v6Enabled);
    CatchallPresent(l.rules4, false, d, FamilyPolicy(p4, stored), ids.catchall(d, false));
    CatchallPresent(l.rules6, true, d, FamilyPolicy(p6, stored), ids.catchall(d, true));
  }

  lemma OtherChainsStay(l: Lists, d: Direction, p4: Option<PolicyWord>, p6: Option<PolicyWord>, v6Enabled: bool, ids: Draws,
                        d2: Direction, q4: Option<PolicyWord>, q6: Option<PolicyWord>)
    requires d2 != d && ChainSettled(l, d2, q4, q6, v6Enabled)
    ensures ChainSettled(OneChain(l, d, p4, p6, v6Enabled, ids), d2, q4, q6, v6Enabled)
  {
    var stored, w := l.policies.For(d), l.policies.For(d2);
    CatchallElsewhere(l.rules4, false, d, FamilyPolicy(p4, stored), ids.catchall(d, false), d2, FamilyPolicy(q4, w));
    CatchallElsewhere(l.rules6, true, d, FamilyPolicy(p6, stored), ids.catchall(d, true), d2, FamilyPolicy(q6, w));
  }

  ghost predicate KnownStream(s: Stream) {
    s.input != Some(PolicyOther) && s.output != Some(PolicyOther) && s.forward != Some(PolicyOther)
  }

  ghost predicate AllSettled(l: Lists, s4: Stream, s6: Stream, v6Enabled: bool) {
    && ChainSettled(l, In, s4.input, s6.input, v6Enabled)
    && ChainSettled(l, Out, s4.output, s6.output, v6Enabled)
    && ChainSettled(l, Routed, s4.forward, s6.forward, v6Enabled)
  }

  lemma ThreeChainsSettle(l: Lists, s4: Stream, s6: Stream, v6Enabled: bool, ids: Draws)
    requires KnownStream(s4) && KnownStream(s6)
    ensures AllSettled(ThreeChains(l, s4, s6, v6Enabled, ids), s4, s6, v6Enabled)
  {
    var l1 := OneChain(l, In, s4.input, s6.input, v6Enabled, ids);
    var l2 := OneChain(l1, Out, s4.output, s6.output, v6Enabled, ids);
    OneChainSettles(l, In, s4.input, s6.input, v6Enabled, ids);
    OneChainSettles(l1, Out, s4.output, s6.output, v6Enabled, ids);
    OneChainSettles(l2, Routed, s4.forward, s6.forward, v6Enabled, ids);
    OtherChainsStay(l1, Out, s4.output, s6.output, v6Enabled, ids, In, s4.input, s6.input);
    OtherChainsStay(l2, Routed, s4.forward, s6.forward, v6Enabled, ids, In, s4.input, s6.input);
    OtherChainsStay(l2, Routed, s4.forward, s6.forward, v6Enabled, ids, Out, s4.output, s6.output);
  }

  /** A second pass of the policy loop adds no catchall and keeps the policies. */
  lemma SettledAgain(l: Lists, s4: Stream, s6: Stream, v6Enabled: bool, ids: Draws)
    requires AllSettled(l, s4, s6, v6Enabled)
    ensures ThreeChains(l, s4, s6, v6Enabled, ids) == l
  {
    SettledChain(l, In, s4.input, s6.input, v6Enabled, ids);
    SettledChain(l, Out, s4.output, s6.output, v6Enabled, ids);
    SettledChain(l, Routed, s4.forward, s6.forward, v6Enabled, ids);
  }

  // ---- the whole import ------------------------------------------------------------------------

  /** One optional dump: an absent one contributes nothing. */
  function StreamFor(lines: Option<seq<Line>>, v6: bool): Result<Stream> {
    match lines
    case None => Ok(NO_STREAM)
    case Some(l) => Streamed(l, v6)
  }

  function Drawn(ids: nat -> string, n: nat): (s: seq<string>)
    ensures |s| == n
  {
    seq(n, i requires 0 <= i < n => ids(i))
  }

  function ImportedLists(s4: Stream, s6: Stream, st: State, v6Enabled: bool, ids: Draws): Lists {
    ThreeChains(
      Lists(Merged(st.rules4, s4.rules, Drawn(ids.merge4, |s4.rules|)),
            Merged(st.rules6, s6.rules, Drawn(ids.merge6, |s6.rules|)), st.policies),
      s4, s6, v6Enabled, ids)
  }

  /** A second dump turns IPv6 on; dumps without any rule or policy are refused. */
  function Import(v4: Option<seq<Line>>, v6: Option<seq<Line>>, st: State, ids: Draws): Result<State> {
    match (StreamFor(v4, false), StreamFor(v6, true))
    case (Ok(s4), Ok(s6)) =>
      if s4.Empty() && s6.Empty() then Err
      else
        var l := ImportedLists(s4, s6, st, st.ipv6 || v6.Some?, ids);
        Ok(st.(rules4 := l.rules4, rules6 := l.rules6, policies := l.policies, ipv6 := st.ipv6 || v6.Some?))
    case _ => Err
  }

  method EmulateChain(l: Lists, d: Direction, p4: Option<PolicyWord>, p6: Option<PolicyWord>, v6Enabled: bool, ids: Draws)
    returns (out: Lists)
    ensures out == OneChain(l, d, p4, p6, v6Enabled, ids)
  {
    var stored := l.policies.For(d);
    var eff4 := FamilyPolicy(p4, stored);
    var base := eff4;
    if v6Enabled && Rank(FamilyPolicy(p6, stored)) > Rank(base) {
      base := FamilyPolicy(p6, stored);
    }
    out := l;
    if eff4 != base {
      var rules := AppendPolicyCatchall(out.rules4, false, d, eff4, ids.catchall(d, false));
      out := out.(rules4 := rules);
    }
    if v6Enabled && FamilyPolicy(p6, stored) != base {
      var rules := AppendPolicyCatchall(out.rules6, true, d, FamilyPolicy(p6, stored), ids.catchall(d, true));
      out := out.(rules6 := rules);
    }
    out := out.(policies := WithPolicy(l.policies, d, base));
  }

  /** Chains emulated so far. */
  function SomeChains(l: Lists, s4: Stream, s6: Stream, v6Enabled: bool, ids: Draws, n: nat): Lists
    requires n <= 3
  {
    if n == 0 then l
    else
      var d := if n == 1 then In else if n == 2 then Out else Routed;
      OneChain(SomeChains(l, s4, s6, v6Enabled, ids, n - 1), d, s4.For(d), s6.For(d), v6Enabled, ids)
  }

  method ReadStream(lines: Option<seq<Line>>, v6: bool) returns (res: Result<Stream>)
    ensures res == StreamFor(lines, v6)
  {
    if lines.None? {
      return Ok(NO_STREAM);
    }
    res := ImportStream(lines.value, v6);
  }

  method MergeStreams(s4: Stream, s6: Stream, st: State, v6Enabled: bool, ids: Draws) returns (l: Lists)
    ensures l == ImportedLists(s4, s6, st, v6Enabled, ids)
  {
    var rules4, _ := MergeRules(st.rules4, s4.rules, Drawn(ids.merge4, |s4.rules|));
    var rules6, _ := MergeRules(st.rules6, s6.rules, Drawn(ids.merge6, |s6.rules|));
    l := Lists(rules4, rules6, st.policies);
    ghost var start := l;
    var dirs := [In, Out, Routed];
    for i := 0 to 3
      invariant l == SomeChains(start, s4, s6, v6Enabled, ids, i)
    {
      l := EmulateChain(l, dirs[i], s4.For(dirs[i]), s6.For(dirs[i]), v6Enabled, ids);
    }
    ThreeIsAll(start, s4, s6, v6Enabled, ids);
  }

  lemma ThreeIsAll(l: Lists, s4: Stream, s6: Stream, v6Enabled: bool, ids: Draws)
    ensures SomeChains(l, s4, s6, v6Enabled, ids, 3) == ThreeChains(l, s4, s6, v6Enabled, ids)
  {
    assert SomeChains(l, s4, s6, v6Enabled, ids, 0) == l;
    assert SomeChains(l, s4, s6, v6Enabled, ids, 1) == OneChain(l, In, s4.input, s6.input, v6Enabled, ids);
  }

  /** Merges both dumps into a copy of the state; any refusal leaves the caller's state as it was. */
  method ImportIPTables(v4: Option<seq<Line>>, v6: Option<seq<Line>>, st: State, ids: Draws) returns (res: Result<State>)
    ensures res == Import(v4, v6, st, ids)
  {
    var r4 := ReadStream(v4, false);
    var r6 := ReadStream(v6, true);
    if r4.Err? || r6.Err? || (r4.value.Empty() && r6.value.Empty()) {
      return Err;
    }
    var enabled := st.ipv6 || v6.Some?;
    var l := MergeStreams(r4.value, r6.value, st, enabled, ids);
    res := Ok(st.(rules4 := l.rules4, rules6 := l.rules6, policies := l.policies, ipv6 := enabled));
  }

  // ---- what an import decides --------------------------------------------------------------------

  lemma KnownPolicies(lines: Option<seq<Line>>, v6: bool)
    requires StreamFor(lines, v6).Ok?
    ensures KnownStream(StreamFor(lines, v6).value)
  {
  }

  lemma ImportedKept(rules: seq<Rule>, v6: bool, now: int)
    requires Imported(rules)
    ensures KeptActiveAll(rules, v6, now)
  {
    forall d, policy ensures KeptActive(rules, v6, d, policy, now) {
    }
  }

  /** The verdict of the saved chain and its policy; an undeclared policy is the stored one. */
  ghost function SavedVerdict(lines: seq<Line>, d: Direction, stored: PolicyWord, p: Packet): Action {
    match Run(Restored(lines, "filter", ChainName(d)), p)
    case Some(a) => a
    case None => PolicyAction(FamilyPolicy(PolicyOf(Declared(lines, "filter", ChainName(d))), stored))
  }

  /** The saved rules of one family, as imported. */
  function FamilyStream(v4: Option<seq<Line>>, v6: Option<seq<Line>>, family: bool): Result<Stream> {
    if family then StreamFor(v6, true) else StreamFor(v4, false)
  }

  /** Imported into empty lists, every packet outside established and related gets the verdict of
      running its family's saved chain, unless a later saved rule repeats the deciding rule's
      tuple with another action. */
  lemma ImportVerdict(v4: Option<seq<Line>>, v6: Option<seq<Line>>, st: State, ids: Draws,
                      family: bool, d: Direction, now: int, sets: SetFn, p: Packet)
    requires st.rules4 == st.rules6 == [] && Import(v4, v6, st, ids).Ok?
    requires (if family then v6 else v4).Some?
    requires p.Valid() && p.v6 == family && !EstRel(p)
    ensures var out := Import(v4, v6, st, ids).value;
      var rules := if family then out.rules6 else out.rules4;
      var src := FamilyStream(v4, v6, family).value.rules;
      && ValidRules(rules) && Imported(src)
      && match FirstHit(src, family, d, now, sets, p)
         case Some(k) =>
           && HasTuple(src, src[k])
           && SavedVerdict((if family then v6 else v4).value, d, st.policies.For(d), p) == src[k].action
           && Verdict(rules, family, d, out.policies.For(d), now, sets, p) == LastOf(src, src[k]).action
         case None =>
           Verdict(rules, family, d, out.policies.For(d), now, sets, p)
           == SavedVerdict((if family then v6 else v4).value, d, st.policies.For(d), p)
  {
    var s4, s6 := StreamFor(v4, false).value, StreamFor(v6, true).value;
    StreamFaithful((if family then v6 else v4).value, family, d, now, sets, p);
    ListsVerdict(s4, s6, st, st.ipv6 || v6.Some?, ids, family, d, now, sets, p);
  }

  /** Merge and policy loop together, for one family. */
  lemma ListsVerdict(s4: Stream, s6: Stream, st: State, enabled: bool, ids: Draws,
                     family: bool, d: Direction, now: int, sets: SetFn, p: Packet)
    requires st.rules4 == st.rules6 == [] && Imported((if family then s6 else s4).rules)
    requires p.v6 == family && (family ==> enabled)
    ensures var l := ImportedLists(s4, s6, st, enabled, ids);
      var src := (if family then s6 else s4).rules;
      && ValidRules(Family(l, family))
      && match FirstHit(src, family, d, now, sets, p)
         case Some(k) =>
           && HasTuple(src, src[k])
           && Verdict(Family(l, family), family, d, l.policies.For(d), now, sets, p) == LastOf(src, src[k]).action
         case None =>
           Verdict(Family(l, family), family, d, l.policies.For(d), now, sets, p)
           == PolicyAction(FamilyPolicy((if family then s6 else s4).For(d), st.policies.For(d)))
  {
    var src := (if family then s6 else s4).rules;
    MergedVerdict(src, if family then Drawn(ids.merge6, |src|) else Drawn(ids.merge4, |src|), family, d, now, sets, p);
    var l := Lists(Merged([], s4.rules, Drawn(ids.merge4, |s4.rules|)), Merged([], s6.rules, Drawn(ids.merge6, |s6.rules|)), st.policies);
    ImportedKept(Family(l, family), family, now);
    PolicyEmulation(l, s4, s6, enabled, ids, family, d, now, sets, p);
  }

  /** A dump with distinct tuples keeps its verdicts exactly. */
  lemma ImportFaithful(v4: Option<seq<Line>>, v6: Option<seq<Line>>, st: State, ids: Draws,
                       family: bool, d: Direction, now: int, sets: SetFn, p: Packet)
    requires st.rules4 == st.rules6 == [] && Import(v4, v6, st, ids).Ok?
    requires (if family then v6 else v4).Some?
    requires TuplesUnique(FamilyStream(v4, v6, family).value.rules)
    requires p.Valid() && p.v6 == family && !EstRel(p)
    ensures var out := Import(v4, v6, st, ids).value;
      var rules := if family then out.rules6 else out.rules4;
      && ValidRules(rules)
      && Verdict(rules, family, d, out.policies.For(d), now, sets, p)
         == SavedVerdict((if family then v6 else v4).value, d, st.policies.For(d), p)
  {
    ImportVerdict(v4, v6, st, ids, family, d, now, sets, p);
    var src := FamilyStream(v4, v6, family).value.rules;
    var b := FirstHit(src, family, d, now, sets, p);
    if b.Some? {
      OnlyOne(src, b.value);
    }
  }

  // ---- importing twice ----------------------------------------------------------------------------

  /** Rules appended behind a list that already holds every tuple of the source are not looked at. */
  lemma {:induction false} MergedPrefix(list: seq<Rule>, more: seq<Rule>, src: seq<Rule>, ids: seq<string>)
    requires |ids| == |src| && TuplesUnique(list)
    requires forall i :: 0 <= i < |src| ==> HasTuple(list, src[i])
    ensures |Merged(list, src, ids)| == |list|
    ensures Merged(list + more, src, ids) == Merged(list, src, ids) + more
  {
    if src != [] {
      var n := |src| - 1;
      MergedPrefix(list, more, src[..n], ids[..n]);
      MergeKeepsOrder(list, src[..n], ids[..n]);
      var m := Merged(list, src[..n], ids[..n]);
      var i :| 0 <= i < |list| && SameTuple(list[i], src[n]);
      TupleEquivalence(m[i], list[i], src[n]);
      assert SameTuple(m[i], src[n]);
      FindHas(m, src[n]);
      FoundInPrefix(m, more, src[n], ids[n]);
    }
  }

  lemma FoundInPrefix(m: seq<Rule>, more: seq<Rule>, r: Rule, id: string)
    requires Find(m, r).Some?
    ensures MergeOne(m + more, r, id) == MergeOne(m, r, id) + more
    ensures |MergeOne(m, r, id)| == |m|
  {
    var j := Find(m, r).value;
    var k := Find(m + more, r);
    assert (m + more)[j] == m[j];
    assert k.Some? && k.value <= j;
    assert m[k.value] == (m + more)[k.value];
    assert k == Some(j);
  }

  lemma ThreeChainsExtend(l: Lists, s4: Stream, s6: Stream, v6Enabled: bool, ids: Draws)
    ensures var out := ThreeChains(l, s4, s6, v6Enabled, ids); l.rules4 <= out.rules4 && l.rules6 <= out.rules6
  {
  }

  /** Merging the same source again below appended catchalls changes nothing. */
  lemma MergedAgain(list: seq<Rule>, src: seq<Rule>, ids: seq<string>, ids2: seq<string>, out: seq<Rule>)
    requires |ids| == |ids2| == |src| && TuplesUnique(list) && Merged(list, src, ids) <= out
    ensures Merged(out, src, ids2) == out
  {
    var m := Merged(list, src, ids);
    MergeTwice(list, src, ids, ids2);
    AllPresent(list, src, ids);
    assert out == m + out[|m|..];
    MergedPrefix(m, out[|m|..], src, ids2);
  }

  lemma AllPresent(list: seq<Rule>, src: seq<Rule>, ids: seq<string>)
    requires |ids| == |src| && TuplesUnique(list)
    ensures TuplesUnique(Merged(list, src, ids))
    ensures forall i :: 0 <= i < |src| ==> HasTuple(Merged(list, src, ids), src[i])
  {
    assert src[..|src|] == src && ids[..|ids|] == ids;
    MergeKeepsOrder(list, src, ids);
    MergeAppends(list, src, ids, |src|);
    forall i | 0 <= i < |src| ensures HasTuple(Merged(list, src, ids), src[i]) {
      TupleEquivalence(src[i], src[i], src[i]);
      assert HasTuple(src, src[i]);
    }
  }

  /** Importing the same dumps again changes nothing, whatever ids are drawn: no rule is added
      or rewritten, no second catchall is appended and the policies stay. */
  lemma ImportTwice(v4: Option<seq<Line>>, v6: Option<seq<Line>>, st: State, ids: Draws, ids2: Draws)
    requires TuplesUnique(st.rules4) && TuplesUnique(st.rules6) && Import(v4, v6, st, ids).Ok?
    ensures Import(v4, v6, Import(v4, v6, st, ids).value, ids2) == Import(v4, v6, st, ids)
  {
    var s4, s6 := StreamFor(v4, false).value, StreamFor(v6, true).value;
    var enabled := st.ipv6 || v6.Some?;
    var i4, i6 := Drawn(ids.merge4, |s4.rules|), Drawn(ids.merge6, |s6.rules|);
    var l := Lists(Merged(st.rules4, s4.rules, i4), Merged(st.rules6, s6.rules, i6), st.policies);
    var out := ThreeChains(l, s4, s6, enabled, ids);
    ThreeChainsExtend(l, s4, s6, enabled, ids);
    MergedAgain(st.rules4, s4.rules, i4, Drawn(ids2.merge4, |s4.rules|), out.rules4);
    MergedAgain(st.rules6, s6.rules, i6, Drawn(ids2.merge6, |s6.rules|), out.rules6);
    KnownPolicies(v4, false);
    KnownPolicies(v6, true);
    ThreeChainsSettle(l, s4, s6, enabled, ids);
    SettledAgain(out, s4, s6, enabled, ids2);
  }
}
