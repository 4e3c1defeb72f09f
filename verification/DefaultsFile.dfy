/** The defaults file decides policies and IPv6 over the stored state, down to the machine's verdict. */
module DefaultsFile {
  import opened Rules
  import opened Store
  import opened Nft
  import opened Intervals
  import opened Compile
  import opened CompileMatch
  import opened CompileFixed
  import opened CompileTheorems
  import Command

  type Settings = map<string, string>

  function RawOf(v: string): RawPolicy {
    var s := Command.Lower(v);
    if s == "accept" || s == "allow" then RawAccept
    else if s == "drop" || s == "deny" then RawDrop
    else if s == "reject" then RawReject
    else RawOther
  }

  function PolicyKey(m: Settings, key: string): Option<RawPolicy> {
    if key in m then Some(RawOf(m[key])) else None
  }

  /** What the compiler takes from the file: three policies and whether IPv6 is on. */
  function ReadDefaults(m: Settings): Defaults {
    Defaults(
      PolicyKey(m, "DEFAULT_INPUT_POLICY"), PolicyKey(m, "DEFAULT_OUTPUT_POLICY"), PolicyKey(m, "DEFAULT_FORWARD_POLICY"),
      if "IPV6" in m then Some(Command.Lower(m["IPV6"]) == "yes") else None)
  }

  // ---- what a text means ------------------------------------------------------------------------

  /** A key's text, in lower case; a missing key has none. */
  function Says(m: Settings, key: string): string {
    if key in m then Command.Lower(m[key]) else ""
  }

  /** The verdict for what nothing else decides: by the text if it is a policy word, and otherwise
      by the stored word. */
  predicate DecidedBy(text: string, stored: PolicyWord, v: Verdict) {
    && (text == "accept" || text == "allow" ==> v == Accept)
    && (text == "drop" || text == "deny" ==> v == Drop)
    && (text == "reject" ==> v == Refuse)
    && (text != "accept" && text != "allow" && text != "drop" && text != "deny" && text != "reject" ==>
          v == match stored case PolicyAllow => Accept case PolicyReject => Refuse case PolicyDeny => Drop case PolicyOther => Drop)
  }

  predicate Ipv6On(st: State, m: Settings) {
    if "IPV6" in m then Says(m, "IPV6") == "yes" else st.ipv6
  }

  // ---- the verdict -------------------------------------------------------------------------------

  /** A state outside panic that compiles with the file's settings. */
  ghost predicate Compiles(st: State, m: Settings, now: int, fixed: FixedRules, sort: Sorting) {
    st.Valid() && !st.panic && CompileState(st, ReadDefaults(m), now, fixed, sort).Ok?
  }

  function Verdict3(st: State, m: Settings, now: int, fixed: FixedRules, d: Direction, env: Env, sort: Sorting): Option<Verdict>
    requires CompileState(st, ReadDefaults(m), now, fixed, sort).Ok? && env.pkt.Valid()
  {
    Traverse(env, CompileState(st, ReadDefaults(m), now, fixed, sort).value, d, BasePolicy(st, ReadDefaults(m), d), 3)
  }

  /** Neither a fixed nor a user rule decides the packet. */
  ghost predicate Undecided(st: State, m: Settings, now: int, fixed: FixedRules, d: Direction, env: Env, sort: Sorting)
    requires Compiles(st, m, now, fixed, sort)
  {
    var sets := CompileState(st, ReadDefaults(m), now, fixed, sort).value.sets;
    BeforeVerdict(d, fixed, env, Banned(sets, env.pkt)).None? && UserVerdict(st, now, d, env, CompiledSets(sets)).None?
  }

  lemma UndecidedVerdict(st: State, m: Settings, now: int, fixed: FixedRules, d: Direction, env: Env, sort: Sorting)
    requires Compiles(st, m, now, fixed, sort) && env.pkt.Valid() && Undecided(st, m, now, fixed, d, env, sort)
    requires env.pkt.v6 ==> Ipv6On(st, m)
    ensures Verdict3(st, m, now, fixed, d, env, sort) == Some(PolicyVerdict(EffectivePolicies(st, ReadDefaults(m)).For(d)))
  {
    CompiledVerdict(st, ReadDefaults(m), now, fixed, d, env, sort);
  }

  lemma RawSays(text: string, stored: PolicyWord)
    ensures DecidedBy(Command.Lower(text), stored, PolicyVerdict(OverridePolicy(stored, Some(RawOf(text)))))
  {
    WordsDiffer();
  }

  /** The policy words are five different texts, none of them empty. */
  lemma WordsDiffer()
    ensures "accept"[1] == 'c' && "allow"[1] == 'l' && "drop"[1] == 'r' && "deny"[1] == 'e' && "reject"[2] == 'j'
    ensures "accept" != "" && "allow" != "" && "drop" != "" && "deny" != "" && "reject" != ""
  {
  }

  lemma KeySays(m: Settings, key: string, stored: PolicyWord)
    ensures DecidedBy(Says(m, key), stored, PolicyVerdict(OverridePolicy(stored, PolicyKey(m, key))))
  {
    WordsDiffer();
    if key in m {
      RawSays(m[key], stored);
    }
  }

  lemma PoliciesSay(st: State, m: Settings)
    requires !st.panic
    ensures var pol := EffectivePolicies(st, ReadDefaults(m));
      && DecidedBy(Says(m, "DEFAULT_INPUT_POLICY"), st.policies.input, PolicyVerdict(pol.For(In)))
      && DecidedBy(Says(m, "DEFAULT_OUTPUT_POLICY"), st.policies.output, PolicyVerdict(pol.For(Out)))
      && DecidedBy(Says(m, "DEFAULT_FORWARD_POLICY"), st.policies.forward, PolicyVerdict(pol.For(Routed)))
  {
    KeySays(m, "DEFAULT_INPUT_POLICY", st.policies.input);
    KeySays(m, "DEFAULT_OUTPUT_POLICY", st.policies.output);
    KeySays(m, "DEFAULT_FORWARD_POLICY", st.policies.forward);
  }

  /** Input follows DEFAULT_INPUT_POLICY, or the stored input policy, whatever the other keys say. */
  lemma InputDefault(st: State, m: Settings, now: int, fixed: FixedRules, env: Env, sort: Sorting)
    requires Compiles(st, m, now, fixed, sort) && env.pkt.Valid() && Undecided(st, m, now, fixed, In, env, sort)
    requires env.pkt.v6 ==> Ipv6On(st, m)
    ensures var v := Verdict3(st, m, now, fixed, In, env, sort);
      v.Some? && DecidedBy(Says(m, "DEFAULT_INPUT_POLICY"), st.policies.input, v.value)
  {
    UndecidedVerdict(st, m, now, fixed, In, env, sort);
    PoliciesSay(st, m);
  }

  lemma OutputDefault(st: State, m: Settings, now: int, fixed: FixedRules, env: Env, sort: Sorting)
    requires Compiles(st, m, now, fixed, sort) && env.pkt.Valid() && Undecided(st, m, now, fixed, Out, env, sort)
    requires env.pkt.v6 ==> Ipv6On(st, m)
    ensures var v := Verdict3(st, m, now, fixed, Out, env, sort);
      v.Some? && DecidedBy(Says(m, "DEFAULT_OUTPUT_POLICY"), st.policies.output, v.value)
  {
    UndecidedVerdict(st, m, now, fixed, Out, env, sort);
    PoliciesSay(st, m);
  }

  lemma ForwardDefault(st: State, m: Settings, now: int, fixed: FixedRules, env: Env, sort: Sorting)
    requires Compiles(st, m, now, fixed, sort) && env.pkt.Valid() && Undecided(st, m, now, fixed, Routed, env, sort)
    requires env.pkt.v6 ==> Ipv6On(st, m)
    ensures var v := Verdict3(st, m, now, fixed, Routed, env, sort);
      v.Some? && DecidedBy(Says(m, "DEFAULT_FORWARD_POLICY"), st.policies.forward, v.value)
  {
    UndecidedVerdict(st, m, now, fixed, Routed, env, sort);
    PoliciesSay(st, m);
  }

  /** The IPV6 key decides over the stored flag: unless it says yes, or is missing and the flag is
      set, an IPv6 packet passes via loopback "lo" on input and output only. */
  lemma Ipv6KeyDecides(st: State, m: Settings, now: int, fixed: FixedRules, d: Direction, env: Env, sort: Sorting)
    requires Compiles(st, m, now, fixed, sort) && env.pkt.Valid() && env.pkt.v6
    requires if "IPV6" in m then Says(m, "IPV6") != "yes" else !st.ipv6
    ensures Verdict3(st, m, now, fixed, d, env, sort)
      == Some(if (d == In && env.pkt.iif == [108, 111]) || (d == Out && env.pkt.oif == [108, 111]) then Accept else Drop)
  {
    CompiledVerdict(st, ReadDefaults(m), now, fixed, d, env, sort);
  }

  /** Panic drops everything, whatever the file says. */
  lemma PanicDrops(st: State, m: Settings, now: int, fixed: FixedRules, d: Direction, env: Env, sort: Sorting)
    requires st.Valid() && st.panic && env.pkt.Valid()
    ensures CompileState(st, ReadDefaults(m), now, fixed, sort).Ok?
    ensures Verdict3(st, m, now, fixed, d, env, sort) == Some(Drop)
  {
    CompiledVerdict(st, ReadDefaults(m), now, fixed, d, env, sort);
  }
}
