/** What each rule of the model is compiled to: register expressions, sets and chains. */
module Compile {
  import opened Bytes
  import opened Cidr
  import opened Intervals
  import opened Rules
  import opened Store
  import opened Nft

  /** Set ids handed out so far, the sets indexed by name, and every set in compile order. */
  datatype Alloc = Alloc(next: nat, sets: map<SetKey, SetBody>, batch: seq<SetObject>)

  /** One more set with the next id. It is appended to the batch even when the name is taken. */
  function Created(a: Alloc, key: SetKey, keyLen: nat, body: SetBody): Alloc {
    Alloc(a.next + 1, a.sets[key := body], a.batch + [SetObject(key, keyLen, body)])
  }

  // ---- matches ------------------------------------------------------------------

  function FamilyExprs(v6: bool): seq<Expr> {
    [Meta(NfProto), Cmp(true, [if v6 then 10 else 2])]
  }

  function Truncate16(n: Name): (r: Name)
    ensures |r| <= 16
    ensures |n| <= 16 ==> r == n
  {
    if |n| <= 16 then n else n[..16]
  }

  /** A trailing '+' compares only the bytes before it. */
  function IfaceExprs(input: bool, name: Name): seq<Expr>
    requires |name| <= 16
  {
    var load := Meta(if input then IifName else OifName);
    if Wildcard(name) then
      var prefix := name[..|name| - 1];
      [load, Bitwise(PrefixMask(|prefix|), Zeros(16)), Cmp(true, Pad16(prefix))]
    else [load, Cmp(true, Pad16(name))]
  }

  function PrefixMask(n: nat): (m: seq<Byte>)
    requires n <= 16
    ensures |m| == 16
  {
    seq(16, i => if i < n then 255 else 0)
  }

  function L4Exprs(num: Byte): seq<Expr> {
    [Meta(L4Proto), Cmp(true, [num])]
  }

  function IcmpExprs(t: Byte): seq<Expr> {
    [Payload(1, TransportHeader, 0, 1), Cmp(true, [t])]
  }

  function CtExprs(bits: Byte): seq<Expr> {
    [Ct, Bitwise([bits, 0, 0, 0], Zeros(4)), Cmp(false, Zeros(4))]
  }

  const CT_NEW: Byte := 8
  const CT_EST_REL: Byte := 6
  const CT_INVALID: Byte := 1

  function AddrLoad(dst: bool, v6: bool): Expr {
    if v6 then Payload(1, NetworkHeader, if dst then 24 else 8, 16)
    else Payload(1, NetworkHeader, if dst then 16 else 12, 4)
  }

  /** Contradictory comparisons: an address that cannot match fails closed. */
  const FAIL_CLOSED: seq<Expr> := [Cmp(true, [0]), Cmp(true, [1])]

  function IpExprs(ip: Ip, dst: bool, v6: bool): seq<Expr> {
    match ip
    case AnyIp => []
    case BadIp(_) => FAIL_CLOSED
    case Net(bytes, ones) =>
      var n := if v6 then 16 else 4;
      if |bytes| != n then FAIL_CLOSED
      else if ones == 8 * n then [AddrLoad(dst, v6), Cmp(true, bytes)]
      else [AddrLoad(dst, v6), Bitwise(Mask(n, ones), Zeros(n)), Cmp(true, bytes)]
  }

  function SetText(name: string, v6: bool): string {
    if v6 then name + "6" else name
  }

  function EndpointExprs(a: AddrSpec, dst: bool, v6: bool): seq<Expr> {
    if a.setName != "" then [AddrLoad(dst, v6), Lookup(NamedSet(SetText(a.setName, v6)))]
    else IpExprs(a.ip, dst, v6)
  }

  /** The ranges that speak about one protocol. */
  function Selected(ports: seq<PortRange>, tcp: bool): (r: seq<PortRange>) {
    if ports == [] then []
    else (if Selects(ports[0], tcp) then [ports[0]] else []) + Selected(ports[1..], tcp)
  }

  function PortIntervalElems(lo: nat, hi: nat): seq<Elem> {
    [Elem(Port(lo), false), Elem(if hi == 65535 then Port(0) else Port(hi + 1), true)]
  }

  function PortElems(ports: seq<PortRange>, interval: bool): seq<Elem> {
    if ports == [] then []
    else
      (if interval then PortIntervalElems(ports[0].lo, ports[0].hi) else [Elem(Port(ports[0].lo), false)])
      + PortElems(ports[1..], interval)
  }

  predicate AnyMulti(ports: seq<PortRange>) {
    exists i :: 0 <= i < |ports| && ports[i].lo != ports[i].hi
  }

  function PortSet(ports: seq<PortRange>): SetBody {
    SetBody(PortElems(ports, AnyMulti(ports)), AnyMulti(ports))
  }

  /** Several ranges need an anonymous set with a fresh id. */
  function PortAlloc(ports: seq<PortRange>, tcp: bool, a: Alloc): Alloc {
    var sel := Selected(ports, tcp);
    if |sel| <= 1 then a
    else Created(a, AnonSet(a.next + 1), 2, PortSet(sel))
  }

  function PortExprs(ports: seq<PortRange>, tcp: bool, dst: bool, a: Alloc): seq<Expr> {
    var sel := Selected(ports, tcp);
    var load := Payload(1, TransportHeader, if dst then 2 else 0, 2);
    if |sel| == 0 then []
    else if |sel| == 1 then
      [load, if sel[0].lo == sel[0].hi then Cmp(true, Port(sel[0].lo)) else Range(Port(sel[0].lo), Port(sel[0].hi))]
    else [load, Lookup(AnonSet(a.next + 1))]
  }

  // ---- protocol variants -----------------------------------------------------------

  /** Whether some range makes the rule speak about tcp (or udp). */
  predicate Wants(r: Rule, tcp: bool) {
    SomeSelects(r.src.ports, tcp) || SomeSelects(r.dst.ports, tcp)
  }

  /** One compile pass per protocol; bare ports expand to tcp and udp. */
  function Variants(r: Rule): (v: seq<Proto>)
    ensures 1 <= |v| <= 2
  {
    if r.proto != AnyProto then [r.proto]
    else if !Wants(r, true) && !Wants(r, false) then [AnyProto]
    else (if Wants(r, true) then [Tcp] else []) + (if Wants(r, false) then [Udp] else [])
  }

  predicate IsIcmp(p: Proto) {
    p == Icmp || p == Icmpv6
  }

  predicate TakesPorts(p: Proto) {
    p == Tcp || p == Udp
  }

  /** The cases in which a rule is refused. */
  predicate MatchFails(r: Rule, proto: Proto, v6: bool) {
    || (proto == Icmp && v6) || (proto == Icmpv6 && !v6)
    || (IsIcmp(proto) && (r.src.ports != [] || r.dst.ports != []))
    || proto == UnknownProto
    || (r.icmpType.Some? && !IsIcmp(proto))
  }

  function MatchAlloc(r: Rule, proto: Proto, a: Alloc): Alloc {
    if TakesPorts(proto) then
      PortAlloc(r.dst.ports, proto == Tcp, PortAlloc(r.src.ports, proto == Tcp, a))
    else a
  }

  function ProtoExprs(r: Rule, proto: Proto): seq<Expr> {
    (match ProtoNumber(proto) case Some(num) => L4Exprs(num) case None => [])
    + (if r.icmpType.Some? then IcmpExprs(r.icmpType.value) else [])
  }

  function PortPairExprs(r: Rule, proto: Proto, a: Alloc): seq<Expr> {
    if TakesPorts(proto) then
      PortExprs(r.src.ports, proto == Tcp, false, a)
      + PortExprs(r.dst.ports, proto == Tcp, true, PortAlloc(r.src.ports, proto == Tcp, a))
    else []
  }

  function IfacePairExprs(r: Rule): seq<Expr> {
    (if r.ifaceIn != [] then IfaceExprs(true, Truncate16(r.ifaceIn)) else [])
    + (if r.ifaceOut != [] then IfaceExprs(false, Truncate16(r.ifaceOut)) else [])
  }

  /** Everything before the counter and verdict of one rule variant. */
  function MatchExprs(r: Rule, proto: Proto, v6: bool, a: Alloc): seq<Expr> {
    FamilyExprs(v6) + IfacePairExprs(r) + ProtoExprs(r, proto)
    + EndpointExprs(r.src, false, v6) + EndpointExprs(r.dst, true, v6)
    + PortPairExprs(r, proto, a)
  }

  // ---- one rule ------------------------------------------------------------------------

  function LogPrefix(a: Rules.Action): string {
    match a
    case Allow => "[BFW ALLOW] "
    case Limit => "[BFW LIMIT] "
    case _ => "[BFW BLOCK] "
  }

  const LIMIT3: Expr := RateLimit(3, 10)

  function NewOnly(r: Rule): seq<Expr> {
    if r.log == LogNew then CtExprs(CT_NEW) else []
  }

  /** The two entries a logged variant leaves in its direction's logging chain. */
  function LogEntries(r: Rule, m: seq<Expr>): seq<seq<Expr>> {
    if r.log == LogNone then []
    else [m + NewOnly(r) + [LIMIT3, Log(LogPrefix(r.action))], m + NewOnly(r) + [Counter, Return]]
  }

  function LimitText(r: Rule, v6: bool): string {
    if v6 then r.id + "6" else r.id
  }

  const REG32_00: nat := 8
  const REG32_01: nat := 9

  function LimitKeyExprs(r: Rule, proto: Proto, v6: bool): seq<Expr> {
    var addr := if v6 then Payload(1, NetworkHeader, 8, 16) else Payload(REG32_00, NetworkHeader, 12, 4);
    var portReg := if v6 then 2 else REG32_01;
    [addr, if TakesPorts(proto) then Payload(portReg, TransportHeader, 2, 2) else Immediate(portReg, [0, 0])]
  }

  function VerdictExprs(a: Rules.Action): seq<Expr> {
    match a
    case Allow => [Counter, Decide(Accept)]
    case Deny => [Counter, Decide(Drop)]
    case _ => [Counter, Decide(Refuse)]
  }

  /** The terminal rules of one variant: one verdict, or the two branches of the meter. */
  function ActionRules(r: Rule, proto: Proto, v6: bool, m: seq<Expr>): seq<seq<Expr>> {
    if r.action != Limit then [m + VerdictExprs(r.action)]
    else [
      m + CtExprs(CT_NEW) + LimitKeyExprs(r, proto, v6)
        + [Dynset(LimitSet(LimitText(r, v6))), Counter, Jump(UserLimit)],
      m + [Counter, Jump(UserLimitAccept)]]
  }

  function LogJump(r: Rule, m: seq<Expr>): seq<seq<Expr>> {
    if r.log == LogNone then [] else [m + [Counter, Jump(UserLogging(r.dir))]]
  }

  /** An address and a port, each padded to four bytes. */
  function LimitKeyLen(v6: bool): nat {
    if v6 then 20 else 8
  }

  /** A meter set is created once per rule id and family. */
  function LimitAlloc(r: Rule, v6: bool, a: Alloc): Alloc {
    var key := LimitSet(LimitText(r, v6));
    if r.action != Limit || key in a.sets then a
    else Created(a, key, LimitKeyLen(v6), SetBody([], false))
  }

  function VariantAlloc(r: Rule, proto: Proto, v6: bool, a: Alloc): Alloc {
    LimitAlloc(r, v6, MatchAlloc(r, proto, a))
  }

  /** What one variant adds to one chain. */
  function VariantRules(r: Rule, proto: Proto, v6: bool, a: Alloc, c: Chain): seq<seq<Expr>> {
    var m := MatchExprs(r, proto, v6, a);
    if c == User(r.dir) then LogJump(r, m) + ActionRules(r, proto, v6, m)
    else if c == UserLogging(r.dir) then LogEntries(r, m)
    else []
  }

  predicate RuleFails(r: Rule, v6: bool, now: int) {
    r.Active(now) && (r.action == UnknownAction || exists i :: 0 <= i < |Variants(r)| && MatchFails(r, Variants(r)[i], v6))
  }

  function RuleAlloc(r: Rule, v6: bool, now: int, a: Alloc): Alloc {
    if !r.Active(now) then a
    else
      var v := Variants(r);
      var a1 := VariantAlloc(r, v[0], v6, a);
      if |v| == 1 then a1 else VariantAlloc(r, v[1], v6, a1)
  }

  function RuleRules(r: Rule, v6: bool, now: int, a: Alloc, c: Chain): seq<seq<Expr>> {
    if !r.Active(now) then []
    else
      var v := Variants(r);
      VariantRules(r, v[0], v6, a, c)
      + (if |v| == 1 then [] else VariantRules(r, v[1], v6, VariantAlloc(r, v[0], v6, a), c))
  }

  function ListAlloc(rules: seq<Rule>, v6: bool, now: int, a: Alloc): Alloc {
    if rules == [] then a else ListAlloc(rules[1..], v6, now, RuleAlloc(rules[0], v6, now, a))
  }

  function ListRules(rules: seq<Rule>, v6: bool, now: int, a: Alloc, c: Chain): seq<seq<Expr>> {
    if rules == [] then []
    else
      RuleRules(rules[0], v6, now, a, c)
      + ListRules(rules[1..], v6, now, RuleAlloc(rules[0], v6, now, a), c)
  }

  predicate ListFails(rules: seq<Rule>, v6: bool, now: int) {
    exists i :: 0 <= i < |rules| && RuleFails(rules[i], v6, now)
  }

  // ---- address sets ---------------------------------------------------------------------

  predicate IsAddress(ip: Ip) {
    ip.Net? && (|ip.bytes| == 4 || |ip.bytes| == 16) && ip.Valid()
  }

  /** The elements of one family as intervals, in input order. */
  function FamilyIntervals(es: seq<Ip>, n: nat): seq<Interval> {
    if es == [] then []
    else
      (if IsAddress(es[0]) && |es[0].bytes| == n
       then [Interval(Val(es[0].bytes), BlockEnd(es[0].bytes, es[0].ones))] else [])
      + FamilyIntervals(es[1..], n)
  }

  function BoundKey(b: Bound, n: nat): seq<Byte> {
    if b.At? then Encode(b.v, n) else Zeros(n)
  }

  function AddressElems(ivs: seq<Interval>, n: nat): seq<Elem> {
    if ivs == [] then []
    else
      [Elem(Encode(ivs[0].start, n), false), Elem(BoundKey(ivs[0].end, n), true)]
      + AddressElems(ivs[1..], n)
  }

  /** The merged intervals of one family of a named set or of the bans. */
  function MergedIntervals(es: seq<Ip>, n: nat, sort: Sorting): seq<Interval> {
    Compact(sort(FamilyIntervals(es, n)))
  }

  function AddressSet(es: seq<Ip>, n: nat, sort: Sorting): SetBody {
    SetBody(AddressElems(MergedIntervals(es, n, sort), n), true)
  }

  predicate AddressesFail(es: seq<Ip>) {
    exists i :: 0 <= i < |es| && !IsAddress(es[i])
  }

  function ActiveBans(bans: seq<Ban>, now: int): seq<Ip> {
    if bans == [] then []
    else (if bans[0].expiresAt > now then [bans[0].address] else []) + ActiveBans(bans[1..], now)
  }

  /** Two sets per name: the IPv4 one and the IPv6 one with a "6" appended. */
  function NamedAlloc(sets: seq<IpSet>, a: Alloc, sort: Sorting): Alloc {
    if sets == [] then a
    else NamedAlloc(sets[1..], WithNamed(sets[0], a, sort), sort)
  }

  function WithNamed(s: IpSet, a: Alloc, sort: Sorting): Alloc {
    Created(Created(a, NamedSet(SetText(s.name, false)), 4, AddressSet(s.elements, 4, sort)),
            NamedSet(SetText(s.name, true)), 16, AddressSet(s.elements, 16, sort))
  }

  const NO_SETS: Alloc := Alloc(0, map[], [])

  function BanAlloc(st: State, now: int, sort: Sorting): Alloc {
    var bans := ActiveBans(st.bans, now);
    Created(Created(NO_SETS, ThreatBans(false), 4, AddressSet(bans, 4, sort)), ThreatBans(true), 16, AddressSet(bans, 16, sort))
  }

  // ---- the fixed chains ----------------------------------------------------------------

  /** Tags of the built-in rules whose match is left opaque. All but the last list accept. */
  datatype FixedRules = FixedRules(
    early: seq<nat>, icmpIn: seq<nat>, icmpOut: seq<nat>, icmpForward: seq<nat>,
    multicast: seq<nat>, quiet: seq<nat>)

  function OpaqueAccepts(tags: seq<nat>): seq<seq<Expr>> {
    seq(|tags|, i requires 0 <= i < |tags| => [Opaque(tags[i]), Counter, Decide(Accept)])
  }

  function OpaqueJumps(tags: seq<nat>, c: Chain): seq<seq<Expr>> {
    seq(|tags|, i requires 0 <= i < |tags| => [Opaque(tags[i]), Counter, Jump(c)])
  }

  const LOOPBACK: Name := [108, 111]

  const RTN_LOCAL: Byte := 2
  const RTN_BROADCAST: Byte := 3
  const RTN_MULTICAST: Byte := 5

  function FibExprs(t: Byte): seq<Expr> {
    [FibAddrType, Cmp(true, [t, 0, 0, 0])]
  }

  /** Routing header type 0 is dropped for IPv6. */
  function RoutingHeaderRule(): seq<Expr> {
    FamilyExprs(true) + [RoutingType, Cmp(true, [0])] + [Counter, Decide(Drop)]
  }

  function BanRules(): seq<seq<Expr>> {
    [FamilyExprs(false) + [AddrLoad(false, false), Lookup(ThreatBans(false))] + [Counter, Decide(Drop)],
     FamilyExprs(true) + [AddrLoad(false, true), Lookup(ThreatBans(true))] + [Counter, Decide(Drop)]]
  }

  function LoopbackRule(input: bool): seq<Expr> {
    IfaceExprs(input, LOOPBACK) + [Counter, Decide(Accept)]
  }

  function EstablishedRule(): seq<Expr> {
    CtExprs(CT_EST_REL) + [Counter, Decide(Accept)]
  }

  function BeforeChain(d: Direction, fixed: FixedRules): seq<seq<Expr>> {
    match d
    case In =>
      [LoopbackRule(true), RoutingHeaderRule()] + BanRules() + [EstablishedRule()]
      + OpaqueAccepts(fixed.early)
      + [CtExprs(CT_INVALID) + [Counter, Jump(LogDeny)], CtExprs(CT_INVALID) + [Counter, Decide(Drop)]]
      + OpaqueAccepts(fixed.icmpIn)
      + [FamilyExprs(false) + [Counter, Jump(NotLocal)]]
      + OpaqueAccepts(fixed.multicast)
    case Out =>
      [LoopbackRule(false), RoutingHeaderRule(), EstablishedRule()]
      + OpaqueAccepts(fixed.icmpOut) + [[Counter, Jump(UserEgress)]]
    case Routed =>
      [RoutingHeaderRule()] + BanRules() + [EstablishedRule()] + OpaqueAccepts(fixed.icmpForward)
  }

  function NotLocalChain(): seq<seq<Expr>> {
    [FibExprs(RTN_LOCAL) + [Counter, Return], FibExprs(RTN_MULTICAST) + [Counter, Return],
     FibExprs(RTN_BROADCAST) + [Counter, Return],
     [LIMIT3, Counter, Jump(LogDeny)], [Counter, Decide(Drop)]]
  }

  /** Without IPv6 all of it but loopback is dropped first; then the fixed jump order. */
  function BaseChain(d: Direction, ipv6: bool): seq<seq<Expr>> {
    (if ipv6 then []
     else
       (if d == Routed then []
        else [FamilyExprs(true) + IfaceExprs(d == In, LOOPBACK) + [Counter, Decide(Accept)]])
       + [FamilyExprs(true) + [Counter, Decide(Drop)]])
    + [[Counter, Jump(BeforeLogging(d))], [Counter, Jump(Before(d))], [Counter, Jump(User(d))],
       [Counter, Jump(After(d))], [Counter, Jump(AfterLogging(d))],
       [Counter, Jump(RejectChain(d))], [Counter, Jump(Track(d))]]
  }

  function PolicyVerdict(p: PolicyWord): Verdict {
    match p
    case PolicyAllow => Accept
    case PolicyReject => Refuse
    case _ => Drop
  }

  function TrackChain(p: PolicyWord): seq<seq<Expr>> {
    if p == PolicyAllow then
      [L4Exprs(6) + CtExprs(CT_NEW) + [Counter, Decide(Accept)],
       L4Exprs(17) + CtExprs(CT_NEW) + [Counter, Decide(Accept)]]
    else []
  }

  // ---- logging chains ------------------------------------------------------------------

  predicate Limited(level: Level) {
    level != High && level != Full
  }

  function LogRule(level: Level, prefix: string): seq<Expr> {
    if Limited(level) then [LIMIT3, Log(prefix)] else [Log(prefix)]
  }

  function AfterLoggingChain(level: Level, p: PolicyWord): seq<seq<Expr>> {
    if level == Off then []
    else if p == PolicyDeny || p == PolicyReject then [LogRule(level, "[BFW BLOCK] ")]
    else if level != Low then [LogRule(level, "[BFW ALLOW] ")]
    else []
  }

  function BeforeLoggingChain(level: Level): seq<seq<Expr>> {
    match level
    case Off => []
    case Low => []
    case Medium => [CtExprs(CT_NEW) + [LIMIT3, Log("[BFW AUDIT] ")]]
    case High => [[LIMIT3, Log("[BFW AUDIT] ")]]
    case _ => [[Log("[BFW AUDIT] ")]]
  }

  function LogDenyChain(level: Level): seq<seq<Expr>> {
    if level == Off then []
    else
      [if level == Low then CtExprs(CT_INVALID) + [LIMIT3, Counter, Return]
       else CtExprs(CT_INVALID) + LogRule(level, "[BFW AUDIT INVALID] "),
       LogRule(level, "[BFW BLOCK] ")]
  }

  function LogAllowChain(level: Level): seq<seq<Expr>> {
    if level == Off then [] else [LogRule(level, "[BFW ALLOW] ")]
  }

  function UserLimitChain(level: Level): seq<seq<Expr>> {
    (if level == Off then [] else [[RateLimit(3, 5), Log("[BFW LIMIT BLOCK] ")]])
    + [[Counter, Decide(Refuse)]]
  }

  /** At level off a leading return disables the user log entries below it. */
  function UserLoggingHead(level: Level): seq<seq<Expr>> {
    if level == Off then [[Counter, Return]] else []
  }

  // ---- the whole program ------------------------------------------------------------------

  function BaseAlloc(st: State, now: int, sort: Sorting): Alloc {
    NamedAlloc(st.sets, BanAlloc(st, now, sort), sort)
  }

  function BothRules(r4: seq<Rule>, r6: seq<Rule>, now: int, a: Alloc, c: Chain): seq<seq<Expr>> {
    ListRules(r4, false, now, a, c) + ListRules(r6, true, now, ListAlloc(r4, false, now, a), c)
  }

  function UserRules(st: State, now: int, c: Chain, sort: Sorting): seq<seq<Expr>> {
    BothRules(st.rules4, st.rules6, now, BaseAlloc(st, now, sort), c)
  }

  function FinalAlloc(st: State, now: int, sort: Sorting): Alloc {
    ListAlloc(st.rules6, true, now, ListAlloc(st.rules4, false, now, BaseAlloc(st, now, sort)))
  }

  function ChainContents(st: State, etc: Defaults, now: int, fixed: FixedRules, c: Chain, sort: Sorting): seq<seq<Expr>> {
    var pol, level := EffectivePolicies(st, etc), EffectiveLevel(st);
    match c
    case Base(d) => BaseChain(d, EffectiveIpv6(st, etc))
    case BeforeLogging(d) => BeforeLoggingChain(level)
    case Before(d) => BeforeChain(d, fixed)
    case User(d) => UserRules(st, now, c, sort)
    case After(d) => if d == In then OpaqueJumps(fixed.quiet, SkipToPolicy(In)) else []
    case AfterLogging(d) => AfterLoggingChain(level, pol.For(d))
    case UserLogging(d) => UserLoggingHead(level) + UserRules(st, now, c, sort)
    case RejectChain(d) => if pol.For(d) == PolicyReject then [[Counter, Decide(Refuse)]] else []
    case Track(d) => TrackChain(pol.For(d))
    case SkipToPolicy(d) => [[Counter, Decide(PolicyVerdict(pol.For(d)))]]
    case NotLocal => NotLocalChain()
    case LogDeny => LogDenyChain(level)
    case LogAllow => LogAllowChain(level)
    case UserLimit => UserLimitChain(level)
    case UserLimitAccept => [[Counter, Decide(Accept)]]
    case UserEgress => []
  }

  /** The base chain policy: deny and reject both map to drop. */
  function BasePolicy(st: State, etc: Defaults, d: Direction): Verdict {
    if !st.panic && EffectivePolicies(st, etc).For(d) == PolicyAllow then Accept else Drop
  }

  predicate CompileFails(st: State, now: int) {
    !st.panic &&
      (|| AddressesFail(ActiveBans(st.bans, now))
       || (exists i :: 0 <= i < |st.sets| && AddressesFail(st.sets[i].elements))
       || ListFails(st.rules4, false, now) || ListFails(st.rules6, true, now))
  }

  /** In panic the base chains stand alone with a drop policy. */
  function CompileState(st: State, etc: Defaults, now: int, fixed: FixedRules, sort: Sorting): Result<Program> {
    if CompileFails(st, now) then Err
    else if st.panic then Ok(Program(c => [], map[], []))
    else
      var a := FinalAlloc(st, now, sort);
      Ok(Program(c => ChainContents(st, etc, now, fixed, c, sort), a.sets, a.batch))
  }
}
