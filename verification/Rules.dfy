/** The firewall rule model, and what a rule means for one packet. */
module Rules {
  import opened Bits
  import opened Bytes
  import opened Cidr

  datatype Option<+T> = None | Some(value: T)
  datatype Result<+T> = Ok(value: T) | Err

  datatype Action = Allow | Deny | Reject | Limit | UnknownAction
  datatype Direction = In | Out | Routed
  datatype LogType = LogNone | LogNew | LogAll
  datatype Proto = AnyProto | Tcp | Udp | Ah | Esp | Gre | Vrrp | Ipv6 | Igmp | Icmp | Icmpv6 | UnknownProto

  /** The protocol a port range is bound to; a blank one and "any" mean both. */
  datatype PortProto = Blank | AnyPort | TcpPort | UdpPort

  datatype PortRange = PortRange(lo: nat, hi: nat, proto: PortProto)

  /** A canonical address: the wildcard, a prefix (a host is a full-length prefix), or
      text that does not parse. */
  datatype Ip = AnyIp | Net(bytes: seq<Byte>, ones: nat) | BadIp(text: string) {
    predicate Valid() {
      Net? ==> ones <= 8 * |bytes| && Canonical(bytes, ones)
    }
  }

  /** One endpoint. A set name other than "" replaces the address. */
  datatype AddrSpec = AddrSpec(ip: Ip, ports: seq<PortRange>, setName: string)

  /** Interface names are byte strings; a trailing '+' (43) is a prefix wildcard. */
  type Name = seq<Byte>

  datatype RouteDir = NoRouteDir | RouteIn | RouteOut

  datatype Rule = Rule(
    id: string, action: Action, dir: Direction, routeDir: RouteDir,
    ifaceIn: Name, ifaceOut: Name, proto: Proto, icmpType: Option<Byte>,
    src: AddrSpec, dst: AddrSpec, dapp: string, sapp: string,
    log: LogType, comment: string, expiresAt: int, disabled: bool, v6: bool)
  {
    predicate Expired(now: int) {
      expiresAt != 0 && now >= expiresAt
    }

    predicate Active(now: int) {
      !disabled && !Expired(now)
    }

    predicate Forward() {
      dir == Routed
    }

    predicate ValidAddrs() {
      src.ip.Valid() && dst.ip.Valid()
    }
  }

  // ---- packets -------------------------------------------------------------------

  datatype CtState = CtInvalid | CtEstablished | CtRelated | CtNew | CtUntracked

  /** What a rule can see of a packet at one hook. */
  datatype Packet = Packet(
    v6: bool, iif: Name, oif: Name, l4: Byte, src: seq<Byte>, dst: seq<Byte>,
    sport: nat, dport: nat, icmpType: Byte, ct: CtState, rh0: bool, addrType: Byte)
  {
    predicate Valid() {
      && |src| == |dst| == (if v6 then 16 else 4)
      && ValidName(iif) && ValidName(oif)
      && sport < 65536 && dport < 65536
    }
  }

  predicate ValidName(n: Name) {
    |n| <= 15 && forall i :: 0 <= i < |n| ==> n[i] != 0
  }

  const PLUS: Byte := 43

  predicate Wildcard(pat: Name) {
    pat != [] && pat[|pat| - 1] == PLUS
  }

  predicate NameMatches(pat: Name, name: Name) {
    if Wildcard(pat) then pat[..|pat| - 1] <= name else pat == name
  }

  /** An empty pattern constrains nothing. */
  predicate IfaceMatches(pat: Name, name: Name) {
    pat == [] || NameMatches(pat, name)
  }

  /** Membership of an address in a named set; the address length gives the family. */
  type SetFn = (string, seq<Byte>) -> bool

  function ProtoNumber(p: Proto): Option<Byte> {
    match p
    case Tcp => Some(6)
    case Udp => Some(17)
    case Icmp => Some(1)
    case Icmpv6 => Some(58)
    case Ah => Some(51)
    case Esp => Some(50)
    case Gre => Some(47)
    case Igmp => Some(2)
    case Ipv6 => Some(41)
    case Vrrp => Some(112)
    case AnyProto => None
    case UnknownProto => None
  }

  /** Whether a range constrains packets of tcp (or udp). */
  predicate Selects(p: PortRange, tcp: bool) {
    p.proto == Blank || p.proto == AnyPort || p.proto == if tcp then TcpPort else UdpPort
  }

  predicate SomeSelects(ports: seq<PortRange>, tcp: bool) {
    exists i :: 0 <= i < |ports| && Selects(ports[i], tcp)
  }

  predicate SomeAdmits(ports: seq<PortRange>, tcp: bool, port: nat) {
    exists i :: 0 <= i < |ports| && Selects(ports[i], tcp) && ports[i].lo <= port <= ports[i].hi
  }

  /** A port must lie in one of the ranges that speak about its protocol, if any do. */
  predicate PortsAdmit(ports: seq<PortRange>, tcp: bool, port: nat) {
    SomeSelects(ports, tcp) ==> SomeAdmits(ports, tcp, port)
  }

  predicate AddrMatches(a: AddrSpec, sets: SetFn, addr: seq<Byte>)
    requires a.ip.Valid()
  {
    if a.setName != "" then sets(a.setName, addr)
    else match a.ip
      case AnyIp => true
      case Net(bytes, ones) => InPrefix(bytes, ones, addr)
      case BadIp(_) => false
  }

  predicate IsPorted(l4: Byte) {
    l4 == 6 || l4 == 17
  }

  /** A rule without a protocol but with ports speaks about tcp and udp only, and about
      one of them only if some range selects it. */
  predicate ProtoMatches(r: Rule, p: Packet) {
    if r.proto != AnyProto then ProtoNumber(r.proto) == Some(p.l4)
    else if r.src.ports == [] && r.dst.ports == [] then true
    else IsPorted(p.l4) && (SomeSelects(r.src.ports, p.l4 == 6) || SomeSelects(r.dst.ports, p.l4 == 6))
  }

  predicate PortsMatch(r: Rule, p: Packet) {
    IsPorted(p.l4) ==>
      PortsAdmit(r.src.ports, p.l4 == 6, p.sport) && PortsAdmit(r.dst.ports, p.l4 == 6, p.dport)
  }

  predicate IcmpMatches(r: Rule, p: Packet) {
    r.icmpType.Some? ==> p.icmpType == r.icmpType.value
  }

  /** The meaning of one rule of one family list for one packet. */
  predicate Matches(r: Rule, v6: bool, sets: SetFn, p: Packet)
    requires r.ValidAddrs()
  {
    && p.v6 == v6
    && IfaceMatches(r.ifaceIn, p.iif) && IfaceMatches(r.ifaceOut, p.oif)
    && ProtoMatches(r, p) && PortsMatch(r, p) && IcmpMatches(r, p)
    && AddrMatches(r.src, sets, p.src) && AddrMatches(r.dst, sets, p.dst)
  }

  ghost predicate ValidRules(rules: seq<Rule>) {
    forall i :: 0 <= i < |rules| ==> rules[i].ValidAddrs()
  }

  predicate Hits(r: Rule, v6: bool, dir: Direction, now: int, sets: SetFn, p: Packet)
    requires r.ValidAddrs()
  {
    r.Active(now) && r.dir == dir && Matches(r, v6, sets, p)
  }

  /** Index of the first active rule of a direction that matches. */
  function FirstHit(rules: seq<Rule>, v6: bool, dir: Direction, now: int, sets: SetFn, p: Packet): (k: Option<nat>)
    requires ValidRules(rules)
    ensures k.Some? ==>
      && k.value < |rules| && Hits(rules[k.value], v6, dir, now, sets, p)
      && forall i :: 0 <= i < k.value ==> !Hits(rules[i], v6, dir, now, sets, p)
    ensures k.None? ==> forall i :: 0 <= i < |rules| ==> !Hits(rules[i], v6, dir, now, sets, p)
  {
    if rules == [] then None
    else if Hits(rules[0], v6, dir, now, sets, p) then Some(0)
    else
      assert forall i :: 0 < i < |rules| ==> rules[i] == rules[1..][i - 1];
      match FirstHit(rules[1..], v6, dir, now, sets, p)
      case None => None
      case Some(k) => Some(k + 1)
  }

  // ---- tuples ----------------------------------------------------------------------

  function NormPortProto(p: PortProto): PortProto {
    if p == AnyPort then Blank else p
  }

  predicate SamePorts(a: seq<PortRange>, b: seq<PortRange>) {
    |a| == |b| && forall i :: 0 <= i < |a| ==>
      a[i].lo == b[i].lo && a[i].hi == b[i].hi && NormPortProto(a[i].proto) == NormPortProto(b[i].proto)
  }

  predicate SameAddr(a: AddrSpec, b: AddrSpec) {
    a.ip == b.ip && a.setName == b.setName && SamePorts(a.ports, b.ports)
  }

  /** Routed rules compare by the direction they kept. */
  function TupleDir(r: Rule): Direction {
    if r.Forward() && r.routeDir == RouteIn then In
    else if r.Forward() && r.routeDir == RouteOut then Out
    else r.dir
  }

  /** All match fields agree: the identity used by add, delete and import. */
  predicate SameTuple(r: Rule, o: Rule) {
    && TupleDir(r) == TupleDir(o) && r.Forward() == o.Forward()
    && r.proto == o.proto && r.icmpType == o.icmpType
    && r.ifaceIn == o.ifaceIn && r.ifaceOut == o.ifaceOut && r.v6 == o.v6
    && r.dapp == o.dapp && r.sapp == o.sapp
    && SameAddr(r.src, o.src) && SameAddr(r.dst, o.dst)
  }

  datatype MatchCode = MatchNone | MatchExact | MatchComment | MatchAction

  function Match(r: Rule, o: Rule): MatchCode {
    if !SameTuple(r, o) then MatchNone
    else if r.action == o.action && r.log == o.log && r.comment == o.comment then MatchExact
    else if r.action == o.action && r.log == o.log then MatchComment
    else MatchAction
  }

  lemma TupleEquivalence(a: Rule, b: Rule, c: Rule)
    ensures SameTuple(a, a)
    ensures SameTuple(a, b) <==> SameTuple(b, a)
    ensures SameTuple(a, b) && SameTuple(b, c) ==> SameTuple(a, c)
  {
  }

  /** Rules of one tuple match the same packets. */
  lemma SameTupleSameMatches(a: Rule, b: Rule, v6: bool, sets: SetFn, p: Packet)
    requires SameTuple(a, b) && a.ValidAddrs() && b.ValidAddrs()
    ensures a.dir == b.dir
    ensures Matches(a, v6, sets, p) <==> Matches(b, v6, sets, p)
  {
    SameTuplePorts(a, b, p);
    SameTuplePorts(b, a, p);
  }

  lemma SameTuplePorts(a: Rule, b: Rule, p: Packet)
    requires SameTuple(a, b)
    ensures ProtoMatches(a, p) ==> ProtoMatches(b, p)
    ensures PortsMatch(a, p) ==> PortsMatch(b, p)
  {
    SamePortsAdmit(a.src.ports, b.src.ports, p.l4 == 6, p.sport);
    SamePortsAdmit(a.dst.ports, b.dst.ports, p.l4 == 6, p.dport);
  }

  lemma SamePortsAdmit(a: seq<PortRange>, b: seq<PortRange>, tcp: bool, port: nat)
    requires SamePorts(a, b)
    ensures SomeSelects(a, tcp) <==> SomeSelects(b, tcp)
    ensures PortsAdmit(a, tcp, port) ==> PortsAdmit(b, tcp, port)
  {
    forall i | 0 <= i < |a| ensures Selects(a[i], tcp) <==> Selects(b[i], tcp) {
    }
    if SomeSelects(a, tcp) {
      var i :| 0 <= i < |a| && Selects(a[i], tcp);
      assert Selects(b[i], tcp);
    }
    if SomeAdmits(a, tcp, port) {
      var i :| 0 <= i < |a| && Selects(a[i], tcp) && a[i].lo <= port <= a[i].hi;
      assert Selects(b[i], tcp) && b[i].lo <= port <= b[i].hi;
    }
  }
}
