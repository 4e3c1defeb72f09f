/** From a saved iptables dump to the running firewall: import, compilation and machine together. */
module ImportCompiled {
  import opened Rules
  import opened Store
  import opened Nft
  import opened Intervals
  import opened Compile
  import opened CompileMatch
  import opened CompileUser
  import opened CompileFixed
  import opened CompileTheorems
  import opened FirstMatch
  import Iptables
  import IptSave
  import IptImport
  import IptPolicy
  import ImportValid
  import Merge

  function ActionVerdict(a: Rules.Action): Verdict {
    match a
    case Allow => Accept
    case Deny => Drop
    case _ => Refuse
  }

  /** Saved chains neither limit nor do anything unknown. */
  predicate Plain(a: Rules.Action) {
    a == Allow || a == Deny || a == Reject
  }

  lemma {:induction false} RunPlain(specs: seq<IptSave.Spec>, p: Packet)
    ensures IptImport.Run(specs, p).Some? ==> Plain(IptImport.Run(specs, p).value)
  {
    if specs != [] {
      RunPlain(specs[1..], p);
    }
  }

  lemma SavedPlain(lines: seq<IptSave.Line>, d: Direction, stored: PolicyWord, p: Packet)
    ensures Plain(IptPolicy.SavedVerdict(lines, d, stored, p))
  {
    RunPlain(IptSave.Restored(lines, "filter", IptImport.ChainName(d)), p);
  }

  function FamilyRules(st: State, v6: bool): seq<Rule> {
    if v6 then st.rules6 else st.rules4
  }

  /** User rules and policy decide as first match over the packet's family does. */
  lemma UserDecides(st: State, now: int, d: Direction, env: Env, sets: SetFn)
    requires ValidRules(st.rules4) && ValidRules(st.rules6)
    requires Plain(IptPolicy.Verdict(FamilyRules(st, env.pkt.v6), env.pkt.v6, d, st.policies.For(d), now, sets, env.pkt))
    ensures (match UserVerdict(st, now, d, env, sets) case Some(v) => v case None => PolicyVerdict(st.policies.For(d)))
         == ActionVerdict(IptPolicy.Verdict(FamilyRules(st, env.pkt.v6), env.pkt.v6, d, st.policies.For(d), now, sets, env.pkt))
  {
  }

  /** The defaults leave the policies alone and keep the family on. */
  predicate NoOverride(st: State, etc: Defaults, v6: bool) {
    && Silent(etc.input) && Silent(etc.output) && Silent(etc.forward)
    && (v6 ==> etc.ipv6 == Some(true) || (etc.ipv6.None? && st.ipv6))
  }

  predicate Silent(key: Option<RawPolicy>) {
    key.None? || key == Some(RawOther)
  }

  lemma PastFixed(st: State, etc: Defaults, now: int, fixed: FixedRules, d: Direction, env: Env, sets: SetFn, banned: bool)
    requires ValidRules(st.rules4) && ValidRules(st.rules6)
    requires !st.panic && NoOverride(st, etc, env.pkt.v6) && BeforeVerdict(d, fixed, env, banned).None?
    requires Plain(IptPolicy.Verdict(FamilyRules(st, env.pkt.v6), env.pkt.v6, d, st.policies.For(d), now, sets, env.pkt))
    ensures Reference(st, etc, now, fixed, d, env, sets, banned)
         == ActionVerdict(IptPolicy.Verdict(FamilyRules(st, env.pkt.v6), env.pkt.v6, d, st.policies.For(d), now, sets, env.pkt))
  {
    UserDecides(st, now, d, env, sets);
  }

  /** A dump of distinct tuples whose interface names fit, imported into empty lists, compiled and
      run: every packet of the family that no fixed rule decides gets the verdict of its saved chain and that chain's policy. */
  lemma ImportRuns(v4: Option<seq<IptSave.Line>>, v6: Option<seq<IptSave.Line>>, st: State, ids: IptPolicy.Draws,
                   etc: Defaults, now: int, fixed: FixedRules, d: Direction, env: Env, sort: Sorting)
    requires st.Valid() && st.rules4 == st.rules6 == [] && !st.panic && IptPolicy.Import(v4, v6, st, ids).Ok?
    requires ImportValid.DumpFits(v4) && ImportValid.DumpFits(v6)
    requires (if env.pkt.v6 then v6 else v4).Some? && env.pkt.Valid()
    requires Merge.TuplesUnique(IptPolicy.FamilyStream(v4, v6, env.pkt.v6).value.rules)
    requires var out := IptPolicy.Import(v4, v6, st, ids).value;
      NoOverride(out, etc, env.pkt.v6) && CompileState(out, etc, now, fixed, sort).Ok?
    requires var P := CompileState(IptPolicy.Import(v4, v6, st, ids).value, etc, now, fixed, sort).value;
      BeforeVerdict(d, fixed, env, Banned(P.sets, env.pkt)).None?
    ensures var out := IptPolicy.Import(v4, v6, st, ids).value;
      var P := CompileState(out, etc, now, fixed, sort).value;
      Traverse(env, P, d, BasePolicy(out, etc, d), 3)
      == Some(ActionVerdict(IptPolicy.SavedVerdict((if env.pkt.v6 then v6 else v4).value, d, st.policies.For(d), env.pkt)))
  {
    var out := IptPolicy.Import(v4, v6, st, ids).value;
    var P := CompileState(out, etc, now, fixed, sort).value;
    var sets := CompiledSets(P.sets);
    ImportValid.ImportStaysValid(v4, v6, st, ids);
    IptPolicy.ImportFaithful(v4, v6, st, ids, env.pkt.v6, d, now, sets, env.pkt);
    SavedPlain((if env.pkt.v6 then v6 else v4).value, d, st.policies.For(d), env.pkt);
    CompiledVerdict(out, etc, now, fixed, d, env, sort);
    PastFixed(out, etc, now, fixed, d, env, sets, Banned(P.sets, env.pkt));
  }

  // ---- told on the tokens of the dump ------------------------------------------------------------

  /** The name under which iptables saves the chain of a hook. */
  function HookChain(d: Direction): string {
    match d
    case In => "INPUT"
    case Out => "OUTPUT"
    case Routed => "FORWARD"
  }

  /** A saved rule that the packet passes: it does not match or has no verdict. */
  ghost predicate Passes(spec: IptSave.Spec, p: Packet) {
    !Iptables.Holds(spec, p) || Iptables.TargetOf(spec).None? || Iptables.TargetOf(spec) == Some(Iptables.ToOther)
  }

  /** The k-th rule of the chain is the first with a verdict for the packet, and t is its target. */
  ghost predicate Settles(specs: seq<IptSave.Spec>, p: Packet, k: nat, t: Iptables.Target) {
    && k < |specs| && Iptables.Holds(specs[k], p) && Iptables.TargetOf(specs[k]) == Some(t) && t != Iptables.ToOther
    && forall i :: 0 <= i < k ==> Passes(specs[i], p)
  }

  lemma {:induction false} RunSettled(specs: seq<IptSave.Spec>, p: Packet, k: nat, t: Iptables.Target)
    requires Settles(specs, p, k, t)
    ensures IptImport.Run(specs, p)
      == match t
         case ToAccept => Some(Allow)
         case ToDrop => Some(Deny)
         case ToReject => Some(Reject)
         case _ => None
    decreases k
  {
    if k > 0 {
      assert Passes(specs[0], p);
      assert forall i :: 0 <= i < |specs[1..]| ==> specs[1..][i] == specs[i + 1];
      RunSettled(specs[1..], p, k - 1, t);
    }
  }

  lemma {:induction false} RunPassed(specs: seq<IptSave.Spec>, p: Packet)
    requires forall i :: 0 <= i < |specs| ==> Passes(specs[i], p)
    ensures IptImport.Run(specs, p) == None
  {
    if specs != [] {
      assert Passes(specs[0], p);
      assert forall i :: 0 <= i < |specs[1..]| ==> specs[1..][i] == specs[i + 1];
      RunPassed(specs[1..], p);
    }
  }

  /** No rule of the chain has a verdict, or the first one returns to the policy. */
  ghost predicate LeftToPolicy(specs: seq<IptSave.Spec>, p: Packet) {
    (forall i :: 0 <= i < |specs| ==> Passes(specs[i], p)) || exists k: nat :: Settles(specs, p, k, Iptables.ToReturn)
  }

  lemma RunLeft(specs: seq<IptSave.Spec>, p: Packet)
    requires LeftToPolicy(specs, p)
    ensures IptImport.Run(specs, p) == None
  {
    if k: nat :| Settles(specs, p, k, Iptables.ToReturn) {
      RunSettled(specs, p, k, Iptables.ToReturn);
    } else {
      RunPassed(specs, p);
    }
  }

  /** The verdict for what the saved chain leaves to its policy. */
  predicate PolicyDecides(token: IptSave.PolicyToken, stored: PolicyWord, v: Verdict) {
    match token
    case AcceptToken => v == Accept
    case DropToken => v == Drop
    case RejectToken => v == Refuse
    case _ => v == match stored case PolicyAllow => Accept case PolicyReject => Refuse case PolicyDeny => Drop case PolicyOther => Drop
  }

  lemma SavedTokens(lines: seq<IptSave.Line>, d: Direction, stored: PolicyWord, p: Packet)
    ensures var specs, v := IptSave.Restored(lines, "filter", HookChain(d)), ActionVerdict(IptPolicy.SavedVerdict(lines, d, stored, p));
      && (forall k: nat :: Settles(specs, p, k, Iptables.ToAccept) ==> v == Accept)
      && (forall k: nat :: Settles(specs, p, k, Iptables.ToDrop) ==> v == Drop)
      && (forall k: nat :: Settles(specs, p, k, Iptables.ToReject) ==> v == Refuse)
      && (LeftToPolicy(specs, p) ==> PolicyDecides(IptSave.Declared(lines, "filter", HookChain(d)), stored, v))
  {
    var specs := IptSave.Restored(lines, "filter", HookChain(d));
    assert HookChain(d) == IptImport.ChainName(d);
    forall k: nat, t | Settles(specs, p, k, t)
      ensures IptImport.Run(specs, p) == match t case ToAccept => Some(Allow) case ToDrop => Some(Deny) case ToReject => Some(Reject) case _ => None
    {
      RunSettled(specs, p, k, t);
    }
    if LeftToPolicy(specs, p) {
      RunLeft(specs, p);
    }
  }

  /** From the lines of the dump to the machine: the first saved rule of the hook's chain that
      matches with ACCEPT, DROP or REJECT accepts, drops or refuses the packet, and what the chain
      leaves is decided by its declared policy, or by the stored word if it declares none. */
  lemma DumpDecides(v4: Option<seq<IptSave.Line>>, v6: Option<seq<IptSave.Line>>, st: State, ids: IptPolicy.Draws,
                    etc: Defaults, now: int, fixed: FixedRules, d: Direction, env: Env, sort: Sorting)
    requires st.Valid() && st.rules4 == st.rules6 == [] && !st.panic && IptPolicy.Import(v4, v6, st, ids).Ok?
    requires ImportValid.DumpFits(v4) && ImportValid.DumpFits(v6)
    requires (if env.pkt.v6 then v6 else v4).Some? && env.pkt.Valid()
    requires Merge.TuplesUnique(IptPolicy.FamilyStream(v4, v6, env.pkt.v6).value.rules)
    requires var out := IptPolicy.Import(v4, v6, st, ids).value;
      NoOverride(out, etc, env.pkt.v6) && CompileState(out, etc, now, fixed, sort).Ok?
    requires var P := CompileState(IptPolicy.Import(v4, v6, st, ids).value, etc, now, fixed, sort).value;
      BeforeVerdict(d, fixed, env, Banned(P.sets, env.pkt)).None?
    ensures var out := IptPolicy.Import(v4, v6, st, ids).value;
      var P := CompileState(out, etc, now, fixed, sort).value;
      var lines := (if env.pkt.v6 then v6 else v4).value;
      var specs, v := IptSave.Restored(lines, "filter", HookChain(d)), Traverse(env, P, d, BasePolicy(out, etc, d), 3);
      var stored := match d case In => st.policies.input case Out => st.policies.output case Routed => st.policies.forward;
      && v.Some?
      && (forall k: nat :: Settles(specs, env.pkt, k, Iptables.ToAccept) ==> v.value == Accept)
      && (forall k: nat :: Settles(specs, env.pkt, k, Iptables.ToDrop) ==> v.value == Drop)
      && (forall k: nat :: Settles(specs, env.pkt, k, Iptables.ToReject) ==> v.value == Refuse)
      && (LeftToPolicy(specs, env.pkt) ==> PolicyDecides(IptSave.Declared(lines, "filter", HookChain(d)), stored, v.value))
  {
    ImportRuns(v4, v6, st, ids, etc, now, fixed, d, env, sort);
    SavedTokens((if env.pkt.v6 then v6 else v4).value, d, st.policies.For(d), env.pkt);
  }

  // ---- the global policies ---------------------------------------------------------------------------

  /** The word that a family's chain asks for: its declared policy, or the stored one. */
  function Asked(token: IptSave.PolicyToken, stored: PolicyWord): PolicyWord {
    match token
    case AcceptToken => PolicyAllow
    case DropToken => PolicyDeny
    case RejectToken => PolicyReject
    case _ => if stored == PolicyOther then PolicyDeny else stored
  }

  /** Deny if one asks for it, else reject if one does, else allow. */
  function Strictest(a: PolicyWord, b: PolicyWord): PolicyWord {
    if a == PolicyDeny || b == PolicyDeny then PolicyDeny
    else if a == PolicyReject || b == PolicyReject then PolicyReject
    else PolicyAllow
  }

  function DeclaredIn(lines: Option<seq<IptSave.Line>>, d: Direction): IptSave.PolicyToken {
    if lines.Some? then IptSave.Declared(lines.value, "filter", HookChain(d)) else IptSave.Unset
  }

  lemma StreamPolicies(lines: Option<seq<IptSave.Line>>, v6: bool, d: Direction, stored: PolicyWord)
    requires IptPolicy.StreamFor(lines, v6).Ok?
    ensures IptPolicy.FamilyPolicy(IptPolicy.StreamFor(lines, v6).value.For(d), stored) == Asked(DeclaredIn(lines, d), stored)
  {
    if lines.Some? {
      IptSave.FoldExact(lines.value, "filter", IptImport.ChainName(d));
      assert HookChain(d) == IptImport.ChainName(d);
    }
  }

  lemma BaseAsks(stored: PolicyWord, p4: Option<PolicyWord>, p6: Option<PolicyWord>, enabled: bool)
    requires p4 != Some(PolicyOther) && p6 != Some(PolicyOther)
    ensures var a4, a6 := IptPolicy.FamilyPolicy(p4, stored), IptPolicy.FamilyPolicy(p6, stored);
      IptPolicy.Base(stored, p4, p6, enabled) == if enabled then Strictest(a4, a6) else a4
  {
  }

  lemma ImportedFor(s4: IptImport.Stream, s6: IptImport.Stream, st: State, enabled: bool, ids: IptPolicy.Draws, d: Direction)
    ensures IptPolicy.ImportedLists(s4, s6, st, enabled, ids).policies.For(d)
      == IptPolicy.Base(st.policies.For(d), s4.For(d), s6.For(d), enabled)
  {
  }

  /** The policies after an import: for each hook the stricter of what the two families ask for,
      or what IPv4 asks for while IPv6 is off. */
  lemma ImportedPolicies(v4: Option<seq<IptSave.Line>>, v6: Option<seq<IptSave.Line>>, st: State, ids: IptPolicy.Draws, d: Direction)
    requires IptPolicy.Import(v4, v6, st, ids).Ok?
    ensures var out := IptPolicy.Import(v4, v6, st, ids).value;
      var stored := match d case In => st.policies.input case Out => st.policies.output case Routed => st.policies.forward;
      var policy := match d case In => out.policies.input case Out => out.policies.output case Routed => out.policies.forward;
      var a4, a6 := Asked(DeclaredIn(v4, d), stored), Asked(DeclaredIn(v6, d), stored);
      && out.ipv6 == (st.ipv6 || v6.Some?)
      && policy == if out.ipv6 then Strictest(a4, a6) else a4
  {
    var s4, s6 := IptPolicy.StreamFor(v4, false).value, IptPolicy.StreamFor(v6, true).value;
    StreamPolicies(v4, false, d, st.policies.For(d));
    StreamPolicies(v6, true, d, st.policies.For(d));
    IptPolicy.KnownPolicies(v4, false);
    IptPolicy.KnownPolicies(v6, true);
    BaseAsks(st.policies.For(d), s4.For(d), s6.For(d), st.ipv6 || v6.Some?);
    ImportedFor(s4, s6, st, st.ipv6 || v6.Some?, ids, d);
  }
}
