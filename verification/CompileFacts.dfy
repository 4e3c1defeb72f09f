/** The compiled firewall in outright numbers and texts: protocol numbers, wildcards, expiry,
    meters, what is refused, and what the fixed rules do. */
module CompileFacts {
  import opened Bytes
  import opened Cidr
  import opened Intervals
  import opened Rules
  import opened Nft
  import opened Store
  import opened Compile
  import opened CompileMatch
  import opened ChainEval
  import opened CompileUser
  import opened CompileFixed
  import opened CompileTheorems
  import opened AddressSets
  import opened CompileSets

  // ---- what one rule means -----------------------------------------------------------------------

  /** A rule that names a protocol, ports of the destination, and nothing else. */
  function BareRule(proto: Proto, ports: seq<PortRange>, v6: bool): Rule {
    Rule("", Allow, In, NoRouteDir, [], [], proto, None, AddrSpec(AnyIp, [], ""), AddrSpec(AnyIp, ports, ""),
         "", "", LogNone, "", 0, false, v6)
  }

  lemma BareMatches(proto: Proto, ports: seq<PortRange>, v6: bool, sets: SetFn, p: Packet)
    ensures var r := BareRule(proto, ports, v6);
      r.ValidAddrs() && (Matches(r, v6, sets, p) <==> p.v6 == v6 && ProtoMatches(r, p) && PortsMatch(r, p))
  {
  }

  /** The protocol numbers of the assigned numbers registry. */
  lemma ProtocolNumbers(proto: Proto, v6: bool, sets: SetFn, p: Packet)
    ensures var r := BareRule(proto, [], v6);
      && r.ValidAddrs()
      && (proto == AnyProto ==> (Matches(r, v6, sets, p) <==> p.v6 == v6))
      && (proto == Icmp ==> (Matches(r, v6, sets, p) <==> p.v6 == v6 && p.l4 == 1))
      && (proto == Igmp ==> (Matches(r, v6, sets, p) <==> p.v6 == v6 && p.l4 == 2))
      && (proto == Tcp ==> (Matches(r, v6, sets, p) <==> p.v6 == v6 && p.l4 == 6))
      && (proto == Udp ==> (Matches(r, v6, sets, p) <==> p.v6 == v6 && p.l4 == 17))
      && (proto == Ipv6 ==> (Matches(r, v6, sets, p) <==> p.v6 == v6 && p.l4 == 41))
      && (proto == Gre ==> (Matches(r, v6, sets, p) <==> p.v6 == v6 && p.l4 == 47))
      && (proto == Esp ==> (Matches(r, v6, sets, p) <==> p.v6 == v6 && p.l4 == 50))
      && (proto == Ah ==> (Matches(r, v6, sets, p) <==> p.v6 == v6 && p.l4 == 51))
      && (proto == Icmpv6 ==> (Matches(r, v6, sets, p) <==> p.v6 == v6 && p.l4 == 58))
      && (proto == Vrrp ==> (Matches(r, v6, sets, p) <==> p.v6 == v6 && p.l4 == 112))
  {
    BareMatches(proto, [], v6, sets, p);
    assert PortsMatch(BareRule(proto, [], v6), p);
  }

  lemma OneRange(q: PortRange, tcp: bool, port: nat)
    ensures SomeSelects([q], tcp) <==> Selects(q, tcp)
    ensures SomeAdmits([q], tcp, port) <==> Selects(q, tcp) && q.lo <= port <= q.hi
  {
    if Selects(q, tcp) {
      assert Selects([q][0], tcp);
    }
  }

  /** A bare port range is about tcp and udp, one with a protocol about that protocol only. */
  lemma PortMeaning(q: PortRange, v6: bool, sets: SetFn, p: Packet)
    ensures var r := BareRule(AnyProto, [q], v6);
      && r.ValidAddrs()
      && (Matches(r, v6, sets, p) <==>
            && p.v6 == v6 && q.lo <= p.dport <= q.hi
            && (match q.proto
                case TcpPort => p.l4 == 6
                case UdpPort => p.l4 == 17
                case Blank => p.l4 == 6 || p.l4 == 17
                case AnyPort => p.l4 == 6 || p.l4 == 17))
  {
    BareMatches(AnyProto, [q], v6, sets, p);
    OneRange(q, true, p.dport);
    OneRange(q, false, p.dport);
    assert !SomeSelects([], true) && !SomeSelects([], false);
  }

  /** "eth+" stands for every name that begins with "eth", and "eth0" for itself. */
  lemma PlusIsWildcard(stem: Name, name: Name)
    ensures IfaceMatches(stem + [43], name) <==> |stem| <= |name| && name[..|stem|] == stem
    ensures stem != [] && stem[|stem| - 1] != 43 ==> (IfaceMatches(stem, name) <==> name == stem)
  {
    assert (stem + [43])[..|stem|] == stem;
  }

  /** A rule acts unless it is disabled or its expiry time, if it has one, has come. */
  predicate Applies(r: Rule, d: Direction, now: int, sets: SetFn, p: Packet)
    requires r.ValidAddrs()
  {
    !r.disabled && (r.expiresAt == 0 || now < r.expiresAt) && r.dir == d && Matches(r, p.v6, sets, p)
  }

  lemma AppliesExact(r: Rule, d: Direction, now: int, sets: SetFn, p: Packet)
    requires r.ValidAddrs()
    ensures Applies(r, d, now, sets, p) <==> Hits(r, p.v6, d, now, sets, p)
  {
  }

  // ---- the key of a meter --------------------------------------------------------------------------

  /** The registers after a list of loads; a load outside the packet ends it. */
  function Registers(loads: seq<Expr>, p: Packet): Option<map<nat, seq<Byte>>> {
    if loads == [] then Some(map[])
    else
      match Registers(loads[..|loads| - 1], p)
      case None => None
      case Some(m) =>
        match loads[|loads| - 1]
        case Payload(reg, base, off, len) =>
          (match LoadPayload(p, base, off, len) case None => None case Some(v) => Some(m[reg := v]))
        case Immediate(reg, data) => Some(m[reg := data])
        case _ => Some(m)
  }

  /** A length in bytes filled up to whole 32-bit words. */
  function InWords(n: nat): nat {
    (n + 3) / 4 * 4
  }

  /** A meter counts by source address and destination port: 32-bit registers 8 and 9 for IPv4,
      registers 1 and 2 for IPv6, and port zero for protocols without ports. */
  lemma MeterKey(r: Rule, proto: Proto, v6: bool, p: Packet)
    requires p.Valid() && p.v6 == v6 && (proto == Tcp ==> p.l4 == 6) && (proto == Udp ==> p.l4 == 17)
    ensures var port := if proto == Tcp || proto == Udp then [p.dport / 256, p.dport % 256] else [0, 0];
      && Registers(LimitKeyExprs(r, proto, v6), p)
         == Some(if v6 then map[1 := p.src, 2 := port] else map[8 := p.src, 9 := port])
      && LimitKeyLen(v6) == InWords(|p.src|) + InWords(|port|)
  {
    var loads := LimitKeyExprs(r, proto, v6);
    assert loads[..1] == [loads[0]] && [loads[0]][..0] == [];
    assert p.dport / 256 % 256 == p.dport / 256;
    assert Registers([], p) == Some(map[]);
    assert Registers([loads[0]], p) == Some(map[if v6 then 1 else 8 := p.src]);
  }

  // ---- the meters there are --------------------------------------------------------------------------

  /** A rule in force that needs a meter of that name. */
  predicate Meters(r: Rule, v6: bool, now: int, name: string) {
    r.action == Limit && !r.disabled && (r.expiresAt == 0 || now < r.expiresAt) && name == if v6 then r.id + "6" else r.id
  }

  ghost predicate SomeMeters(rules: seq<Rule>, v6: bool, now: int, name: string) {
    exists i :: 0 <= i < |rules| && Meters(rules[i], v6, now, name)
  }

  lemma PortsNoMeter(ports: seq<PortRange>, tcp: bool, a: Alloc, name: string)
    ensures LimitSet(name) in PortAlloc(ports, tcp, a).sets <==> LimitSet(name) in a.sets
  {
  }

  lemma VariantMeters(r: Rule, proto: Proto, v6: bool, a: Alloc, name: string)
    ensures LimitSet(name) in VariantAlloc(r, proto, v6, a).sets
      <==> LimitSet(name) in a.sets || (r.action == Limit && name == if v6 then r.id + "6" else r.id)
  {
    PortsNoMeter(r.src.ports, proto == Tcp, a, name);
    PortsNoMeter(r.dst.ports, proto == Tcp, PortAlloc(r.src.ports, proto == Tcp, a), name);
  }

  lemma RuleMeters(r: Rule, v6: bool, now: int, a: Alloc, name: string)
    ensures LimitSet(name) in RuleAlloc(r, v6, now, a).sets <==> LimitSet(name) in a.sets || Meters(r, v6, now, name)
  {
    var v := Variants(r);
    VariantMeters(r, v[0], v6, a, name);
    if |v| == 2 {
      VariantMeters(r, v[1], v6, VariantAlloc(r, v[0], v6, a), name);
    }
  }

  lemma {:induction false} ListMeters(rules: seq<Rule>, v6: bool, now: int, a: Alloc, name: string)
    ensures LimitSet(name) in ListAlloc(rules, v6, now, a).sets
      <==> LimitSet(name) in a.sets || SomeMeters(rules, v6, now, name)
  {
    if rules != [] {
      RuleMeters(rules[0], v6, now, a, name);
      ListMeters(rules[1..], v6, now, RuleAlloc(rules[0], v6, now, a), name);
      SomeMetersCons(rules, v6, now, name);
    }
  }

  lemma SomeMetersCons(rules: seq<Rule>, v6: bool, now: int, name: string)
    requires rules != []
    ensures SomeMeters(rules, v6, now, name) <==> Meters(rules[0], v6, now, name) || SomeMeters(rules[1..], v6, now, name)
  {
    if SomeMeters(rules, v6, now, name) {
      var i :| 0 <= i < |rules| && Meters(rules[i], v6, now, name);
      assert i > 0 ==> rules[1..][i - 1] == rules[i];
    }
    if SomeMeters(rules[1..], v6, now, name) {
      var i :| 0 <= i < |rules[1..]| && Meters(rules[1..][i], v6, now, name);
      assert rules[i + 1] == rules[1..][i];
    }
  }

  lemma {:induction false} NamedNoMeter(sets: seq<IpSet>, a: Alloc, sort: Sorting, name: string)
    ensures LimitSet(name) in NamedAlloc(sets, a, sort).sets <==> LimitSet(name) in a.sets
  {
    if sets != [] {
      NamedNoMeter(sets[1..], WithNamed(sets[0], a, sort), sort, name);
    }
  }

  /** The compiled sets have a meter of a name exactly if some limit rule in force needs it. */
  lemma MetersCompiled(st: State, etc: Defaults, now: int, fixed: FixedRules, sort: Sorting, name: string)
    requires !st.panic && CompileState(st, etc, now, fixed, sort).Ok?
    ensures LimitSet(name) in CompileState(st, etc, now, fixed, sort).value.sets
      <==> SomeMeters(st.rules4, false, now, name) || SomeMeters(st.rules6, true, now, name)
  {
    var base := BaseAlloc(st, now, sort);
    NamedNoMeter(st.sets, BanAlloc(st, now, sort), sort, name);
    ListMeters(st.rules4, false, now, base, name);
    ListMeters(st.rules6, true, now, ListAlloc(st.rules4, false, now, base), name);
  }

  // ---- what is refused --------------------------------------------------------------------------------

  /** What a rule of one family must be for the compiler. */
  predicate Compilable(r: Rule, v6: bool) {
    && r.action != UnknownAction && r.proto != UnknownProto
    && (r.proto == Icmp ==> !v6) && (r.proto == Icmpv6 ==> v6)
    && (r.proto == Icmp || r.proto == Icmpv6 ==> r.src.ports == [] && r.dst.ports == [])
    && (r.icmpType.Some? ==> r.proto == Icmp || r.proto == Icmpv6)
  }

  predicate InForceNow(r: Rule, now: int) {
    !r.disabled && (r.expiresAt == 0 || now < r.expiresAt)
  }

  lemma RuleFailsIff(r: Rule, v6: bool, now: int)
    ensures RuleFails(r, v6, now) <==> InForceNow(r, now) && !Compilable(r, v6)
  {
    var v := Variants(r);
    if !Compilable(r, v6) && r.action != UnknownAction {
      assert MatchFails(r, v[0], v6);
    }
  }

  lemma {:induction false} ActiveBansAre(bans: seq<Ban>, now: int, ip: Ip)
    ensures ip in ActiveBans(bans, now) <==> exists i :: 0 <= i < |bans| && bans[i].address == ip && bans[i].expiresAt > now
  {
    if bans != [] {
      ActiveBansAre(bans[1..], now, ip);
      assert forall i :: 0 < i < |bans| ==> bans[i] == bans[1..][i - 1];
      assert forall i :: 0 <= i < |bans[1..]| ==> bans[1..][i] == bans[i + 1];
    }
  }

  predicate GoodAddress(ip: Ip) {
    ip.Net? && (|ip.bytes| == 4 || |ip.bytes| == 16) && ip.Valid()
  }

  lemma BansFailIff(bans: seq<Ban>, now: int)
    ensures AddressesFail(ActiveBans(bans, now)) <==> exists i :: 0 <= i < |bans| && bans[i].expiresAt > now && !GoodAddress(bans[i].address)
  {
    var es := ActiveBans(bans, now);
    if AddressesFail(es) {
      var k :| 0 <= k < |es| && !IsAddress(es[k]);
      ActiveBansAre(bans, now, es[k]);
    }
    if i :| 0 <= i < |bans| && bans[i].expiresAt > now && !GoodAddress(bans[i].address) {
      ActiveBansAre(bans, now, bans[i].address);
      var k :| 0 <= k < |es| && es[k] == bans[i].address;
    }
  }

  ghost predicate Sound(st: State, now: int) {
    && (forall i :: 0 <= i < |st.bans| && st.bans[i].expiresAt > now ==> GoodAddress(st.bans[i].address))
    && (forall i, j :: 0 <= i < |st.sets| && 0 <= j < |st.sets[i].elements| ==> GoodAddress(st.sets[i].elements[j]))
    && (forall i :: 0 <= i < |st.rules4| && InForceNow(st.rules4[i], now) ==> Compilable(st.rules4[i], false))
    && (forall i :: 0 <= i < |st.rules6| && InForceNow(st.rules6[i], now) ==> Compilable(st.rules6[i], true))
  }

  lemma ListFailsIff(rules: seq<Rule>, v6: bool, now: int)
    ensures ListFails(rules, v6, now) <==> exists i :: 0 <= i < |rules| && InForceNow(rules[i], now) && !Compilable(rules[i], v6)
  {
    forall i | 0 <= i < |rules| ensures RuleFails(rules[i], v6, now) <==> InForceNow(rules[i], now) && !Compilable(rules[i], v6) {
      RuleFailsIff(rules[i], v6, now);
    }
  }

  lemma SetsFailIff(sets: seq<IpSet>)
    ensures (exists i :: 0 <= i < |sets| && AddressesFail(sets[i].elements))
      <==> exists i, j :: 0 <= i < |sets| && 0 <= j < |sets[i].elements| && !GoodAddress(sets[i].elements[j])
  {
    if i :| 0 <= i < |sets| && AddressesFail(sets[i].elements) {
      var j :| 0 <= j < |sets[i].elements| && !IsAddress(sets[i].elements[j]);
      assert !GoodAddress(sets[i].elements[j]);
    }
    if i, j :| 0 <= i < |sets| && 0 <= j < |sets[i].elements| && !GoodAddress(sets[i].elements[j]) {
      assert !IsAddress(sets[i].elements[j]);
    }
  }

  /** A state compiles exactly if it is in panic, or every unexpired ban and every set element is an
      address and every rule in force is one the compiler knows for its family. */
  lemma CompilesIff(st: State, etc: Defaults, now: int, fixed: FixedRules, sort: Sorting)
    ensures CompileState(st, etc, now, fixed, sort).Ok? <==> st.panic || Sound(st, now)
  {
    BansFailIff(st.bans, now);
    SetsFailIff(st.sets);
    ListFailsIff(st.rules4, false, now);
    ListFailsIff(st.rules6, true, now);
  }

  /** A source is banned while some ban that covers it has not expired. */
  lemma BannedWhile(bans: seq<Ban>, now: int, src: seq<Byte>)
    ensures SourceBanned(bans, now, src)
      <==> exists i :: 0 <= i < |bans| && bans[i].expiresAt > now && BanCovers(bans[i], src)
  {
    var es := ActiveBans(bans, now);
    if SourceBanned(bans, now, src) {
      var k :| 0 <= k < |es| && IsAddress(es[k]) && InPrefix(es[k].bytes, es[k].ones, src);
      ActiveBansAre(bans, now, es[k]);
    }
    if i :| 0 <= i < |bans| && bans[i].expiresAt > now && BanCovers(bans[i], src) {
      ActiveBansAre(bans, now, bans[i].address);
      var k :| 0 <= k < |es| && es[k] == bans[i].address;
    }
  }

  predicate BanCovers(b: Ban, src: seq<Byte>) {
    GoodAddress(b.address) && InPrefix(b.address.bytes, b.address.ones, src)
  }

  // ---- the fixed rules ------------------------------------------------------------------------------------

  /** None of the rules left opaque applies. */
  predicate NoOpaque(env: Env, fixed: FixedRules) {
    !SomeHolds(env, fixed.early) && !SomeHolds(env, fixed.icmpIn) && !SomeHolds(env, fixed.icmpOut)
    && !SomeHolds(env, fixed.icmpForward) && !SomeHolds(env, fixed.multicast)
  }

  /** With the opaque rules out of the way: loopback "lo" passes on input and output, a type 0
      routing header is dropped, then on input and forward a banned source, then established and
      related traffic passes, then on input INVALID packets are dropped, and IPv4 packets to an
      address that is neither local (2), broadcast (3) nor multicast (5). */
  function FixedOutcome(d: Direction, p: Packet, banned: bool): Option<Verdict> {
    if (d == In && p.iif == [108, 111]) || (d == Out && p.oif == [108, 111]) then Some(Accept)
    else if p.v6 && p.rh0 then Some(Drop)
    else if banned && (d == In || d == Routed) then Some(Drop)
    else if p.ct == CtEstablished || p.ct == CtRelated then Some(Accept)
    else if d == In && p.ct == CtInvalid then Some(Drop)
    else if d == In && !p.v6 && p.addrType != 2 && p.addrType != 3 && p.addrType != 5 then Some(Drop)
    else None
  }

  lemma BeforeIs(d: Direction, fixed: FixedRules, env: Env, banned: bool)
    requires NoOpaque(env, fixed)
    ensures BeforeVerdict(d, fixed, env, banned) == FixedOutcome(d, env.pkt, banned)
  {
  }

  /** The compiled base chain does that, and leaves the other packets to the user rules. */
  lemma FixedVerdict(st: State, etc: Defaults, now: int, fixed: FixedRules, d: Direction, env: Env, sort: Sorting)
    requires st.Valid() && !st.panic && env.pkt.Valid() && CompileState(st, etc, now, fixed, sort).Ok?
    requires NoOpaque(env, fixed) && (env.pkt.v6 ==> EffectiveIpv6(st, etc))
    ensures var P := CompileState(st, etc, now, fixed, sort).value;
      var fate := FixedOutcome(d, env.pkt, Banned(P.sets, env.pkt));
      fate.Some? ==> Traverse(env, P, d, BasePolicy(st, etc, d), 3) == fate
  {
    var P := CompileState(st, etc, now, fixed, sort).value;
    BeforeIs(d, fixed, env, Banned(P.sets, env.pkt));
    CompiledVerdict(st, etc, now, fixed, d, env, sort);
  }

  function ListOf(st: State, v6: bool): seq<Rule> {
    if v6 then st.rules6 else st.rules4
  }

  /** Allowed, dropped, refused, or limited when it is NEW, by a meter of the rule's id and family. */
  function Said(r: Rule, env: Env): Verdict {
    match r.action
    case Allow => Accept
    case Deny => Drop
    case Limit =>
      if env.pkt.ct == CtNew && env.over(LimitSet(if env.pkt.v6 then r.id + "6" else r.id)) then Refuse else Accept
    case _ => Refuse
  }

  ghost predicate FirstOf(st: State, d: Direction, now: int, sets: SetFn, p: Packet, i: nat)
    requires ValidRules(st.rules4) && ValidRules(st.rules6)
  {
    var rules := ListOf(st, p.v6);
    i < |rules| && Applies(rules[i], d, now, sets, p) && forall j :: 0 <= j < i ==> !Applies(rules[j], d, now, sets, p)
  }

  lemma FirstSays(st: State, d: Direction, now: int, sets: SetFn, env: Env, i: nat)
    requires ValidRules(st.rules4) && ValidRules(st.rules6) && FirstOf(st, d, now, sets, env.pkt, i)
    ensures UserVerdict(st, now, d, env, sets) == Some(Said(ListOf(st, env.pkt.v6)[i], env))
  {
    var rules := ListOf(st, env.pkt.v6);
    forall j | 0 <= j < |rules| ensures Applies(rules[j], d, now, sets, env.pkt) <==> Hits(rules[j], env.pkt.v6, d, now, sets, env.pkt) {
      AppliesExact(rules[j], d, now, sets, env.pkt);
    }
    assert FirstHit(rules, env.pkt.v6, d, now, sets, env.pkt) == Some(i);
  }

  /** What the fixed rules leave is decided by the first rule of the packet's family and direction
      that applies: switched on, not expired, and matching. */
  lemma RuleDecides(st: State, etc: Defaults, now: int, fixed: FixedRules, d: Direction, env: Env, sort: Sorting, i: nat)
    requires st.Valid() && !st.panic && env.pkt.Valid() && CompileState(st, etc, now, fixed, sort).Ok?
    requires NoOpaque(env, fixed) && (env.pkt.v6 ==> EffectiveIpv6(st, etc))
    requires var sets := CompileState(st, etc, now, fixed, sort).value.sets;
      && FixedOutcome(d, env.pkt, Banned(sets, env.pkt)) == None
      && FirstOf(st, d, now, CompiledSets(sets), env.pkt, i)
    ensures Traverse(env, CompileState(st, etc, now, fixed, sort).value, d, BasePolicy(st, etc, d), 3)
      == Some(Said(ListOf(st, env.pkt.v6)[i], env))
  {
    var sets := CompileState(st, etc, now, fixed, sort).value.sets;
    BeforeIs(d, fixed, env, Banned(sets, env.pkt));
    CompiledVerdict(st, etc, now, fixed, d, env, sort);
    FirstSays(st, d, now, CompiledSets(sets), env, i);
  }
}
