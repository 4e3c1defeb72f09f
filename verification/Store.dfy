/** The persistent firewall state and the defaults that override it. */
module Store {
  import opened Rules

  datatype PolicyWord = PolicyAllow | PolicyDeny | PolicyReject | PolicyOther

  datatype Policies = Policies(input: PolicyWord, output: PolicyWord, forward: PolicyWord) {
    function For(d: Direction): PolicyWord {
      match d
      case In => input
      case Out => output
      case Routed => forward
    }
  }

  datatype Level = LevelUnset | Off | Low | Medium | High | Full | LevelOther

  datatype IpSet = IpSet(name: string, elements: seq<Ip>)

  /** Clocks count nanoseconds, stored expiry times seconds. */
  const SECOND: int := 1_000_000_000

  datatype Ban = Ban(address: Ip, source: string, reason: string, decisionId: int, expiresAt: int)

  datatype State = State(
    rules4: seq<Rule>, rules6: seq<Rule>, policies: Policies, logging: Level,
    ipv6: bool, panic: bool, sets: seq<IpSet>, bans: seq<Ban>)
  {
    ghost predicate Valid() {
      && ValidRules(rules4) && ValidRules(rules6)
      && (forall i :: 0 <= i < |rules4| ==> Encodable(rules4[i]))
      && (forall i :: 0 <= i < |rules6| ==> Encodable(rules6[i]))
      && (forall i :: 0 <= i < |sets| ==> ValidElements(sets[i].elements))
      && (forall i :: 0 <= i < |bans| ==> bans[i].address.Valid())
    }
  }

  ghost predicate ValidElements(es: seq<Ip>) {
    forall i :: 0 <= i < |es| ==> es[i].Valid()
  }

  /** Interface patterns fit the kernel's 16-byte name field. */
  predicate CleanPattern(pat: Name) {
    |pat| <= 16 && forall i :: 0 <= i < |pat| ==> pat[i] != 0
  }

  predicate ValidPorts(ports: seq<PortRange>) {
    forall i :: 0 <= i < |ports| ==> ports[i].lo < 65536 && ports[i].hi < 65536
  }

  predicate Encodable(r: Rule) {
    && CleanPattern(r.ifaceIn) && CleanPattern(r.ifaceOut)
    && ValidPorts(r.src.ports) && ValidPorts(r.dst.ports)
  }

  /** /etc/default values, already lower-cased; None means the key is absent. */
  datatype RawPolicy = RawAccept | RawDrop | RawReject | RawOther

  datatype Defaults = Defaults(
    input: Option<RawPolicy>, output: Option<RawPolicy>, forward: Option<RawPolicy>, ipv6: Option<bool>)

  function OverridePolicy(current: PolicyWord, raw: Option<RawPolicy>): PolicyWord {
    match raw
    case Some(RawAccept) => PolicyAllow
    case Some(RawDrop) => PolicyDeny
    case Some(RawReject) => PolicyReject
    case _ => current
  }

  /** Panic forces deny-all; otherwise the defaults override the stored policies. */
  function EffectivePolicies(st: State, etc: Defaults): Policies {
    if st.panic then Policies(PolicyDeny, PolicyDeny, PolicyDeny)
    else Policies(
      OverridePolicy(st.policies.input, etc.input),
      OverridePolicy(st.policies.output, etc.output),
      OverridePolicy(st.policies.forward, etc.forward))
  }

  function EffectiveIpv6(st: State, etc: Defaults): bool {
    match etc.ipv6
    case Some(b) => b
    case None => st.ipv6
  }

  function EffectiveLevel(st: State): Level {
    if st.logging == LevelUnset then Low else st.logging
  }
}
