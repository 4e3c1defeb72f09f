/** One iptables-save rule body: what its options match, and the model rule made of it. */
module Iptables {
  import opened Bytes
  import opened Cidr
  import opened Rules
  import opened PortOrder

  datatype Span = Span(lo: nat, hi: nat)

  datatype Target = ToAccept | ToDrop | ToReject | ToReturn | ToOther

  datatype Module = ProtoModule(proto: Proto) | ConnModule | PlainModule | OtherModule

  /** An empty argument is taken as none. */
  datatype RejectKind = PortUnreachable | OtherReject | NoReject

  /** A scanned option. EmptyIcmp is an ICMP type option with an empty argument, which the scan
      takes as no type, so that it constrains nothing and another one may follow. Malformed stands for an option whose argument is missing, negated
      or unreadable, and for any option or word outside the supported list. */
  datatype Opt =
    | ProtoOpt(proto: Proto)
    | AddrOpt(dst: bool, ip: Ip)
    | IfaceOpt(output: bool, name: Name)
    | PortOpt(dst: bool, spans: seq<Span>)
    | ModuleOpt(m: Module)
    | StateOpt(states: seq<CtState>)
    | IcmpOpt(v6: bool, icmp: Option<Byte>)
    | EmptyIcmp
    | CommentOpt(text: string)
    | JumpOpt(target: Target)
    | RejectOpt(kind: RejectKind)
    | Ignored
    | Malformed

  // ---- what a saved rule matches -----------------------------------------------------------

  predicate InSpans(spans: seq<Span>, port: nat) {
    exists i :: 0 <= i < |spans| && spans[i].lo <= port <= spans[i].hi
  }

  predicate OptHolds(o: Opt, p: Packet) {
    match o
    case ProtoOpt(proto) => proto == AnyProto || ProtoNumber(proto) == Some(p.l4)
    case AddrOpt(dst, ip) =>
      (match ip
       case AnyIp => true
       case Net(bytes, ones) => ones <= 8 * |bytes| && InPrefix(bytes, ones, if dst then p.dst else p.src)
       case BadIp(_) => false)
    case IfaceOpt(output, name) => IfaceMatches(name, if output then p.oif else p.iif)
    case PortOpt(dst, spans) => IsPorted(p.l4) && InSpans(spans, if dst then p.dport else p.sport)
    case StateOpt(states) => p.ct in states
    case IcmpOpt(_, icmp) => icmp.Some? && p.icmpType == icmp.value
    case _ => true
  }

  /** All options of a rule must hold. */
  ghost predicate Holds(opts: seq<Opt>, p: Packet) {
    forall i :: 0 <= i < |opts| ==> OptHolds(opts[i], p)
  }

  /** The rule's target, if it has one. */
  function TargetOf(opts: seq<Opt>): Option<Target> {
    if opts == [] then None
    else
      var last := opts[|opts| - 1];
      if last.JumpOpt? then Some(last.target) else TargetOf(opts[..|opts| - 1])
  }

  // ---- collecting the options -----------------------------------------------------------------

  /** The values gathered so far; None means the option has not occurred. */
  datatype Gathered = Gathered(
    proto: Option<Proto>, src: Option<Ip>, dst: Option<Ip>, ifIn: Option<Name>, ifOut: Option<Name>,
    sport: Option<seq<Span>>, dport: Option<seq<Span>>, protoModule: Option<Proto>,
    conn: bool, states: Option<seq<CtState>>, icmpV6: bool, icmp: Option<Option<Byte>>, emptyIcmp: bool,
    comment: Option<string>, target: Option<Target>, reject: Option<RejectKind>)

  const NOTHING: Gathered :=
    Gathered(None, None, None, None, None, None, None, None, false, None, false, None, false, None, None, None)

  predicate GoodSpans(spans: seq<Span>) {
    spans != [] && forall i :: 0 <= i < |spans| ==> spans[i].lo <= spans[i].hi < 65536
  }

  predicate FamilyIp(ip: Ip, v6: bool) {
    ip.AnyIp? || (ip.Net? && ip.Valid() && |ip.bytes| == if v6 then 16 else 4)
  }

  /** A bare "+" is the any-interface wildcard. */
  function Interface(name: Name): Name {
    if name == [PLUS] then [] else name
  }

  /** One option; a second occurrence, an unknown module and a non-verdict target are refused. */
  function Take(g: Gathered, o: Opt, v6: bool): Result<Gathered> {
    match o
    case ProtoOpt(proto) => if g.proto.Some? || proto == UnknownProto then Err else Ok(g.(proto := Some(proto)))
    case AddrOpt(dst, ip) =>
      if (if dst then g.dst else g.src).Some? || !FamilyIp(ip, v6) then Err
      else if dst then Ok(g.(dst := Some(ip))) else Ok(g.(src := Some(ip)))
    case IfaceOpt(output, name) =>
      if (if output then g.ifOut else g.ifIn).Some? then Err
      else if output then Ok(g.(ifOut := Some(Interface(name)))) else Ok(g.(ifIn := Some(Interface(name))))
    case PortOpt(dst, spans) =>
      if (if dst then g.dport else g.sport).Some? || !GoodSpans(spans) then Err
      else if dst then Ok(g.(dport := Some(spans))) else Ok(g.(sport := Some(spans)))
    case ModuleOpt(m) =>
      (match m
       case ProtoModule(proto) => if g.protoModule.Some? then Err else Ok(g.(protoModule := Some(proto)))
       case ConnModule => if g.conn then Err else Ok(g.(conn := true))
       case PlainModule => Ok(g)
       case OtherModule => Err)
    case StateOpt(states) => if g.states.Some? then Err else Ok(g.(states := Some(states)))
    case IcmpOpt(icmpV6, icmp) =>
      if g.icmp.Some? then Err else Ok(g.(icmpV6 := icmpV6, icmp := Some(icmp)))
    case EmptyIcmp => if g.icmp.Some? then Err else Ok(g.(emptyIcmp := true))
    case CommentOpt(text) => if g.comment.Some? then Err else Ok(g.(comment := Some(text)))
    case JumpOpt(target) => if g.target.Some? || target == ToOther then Err else Ok(g.(target := Some(target)))
    case RejectOpt(kind) => Ok(g.(reject := if kind == NoReject then None else Some(kind)))
    case Ignored => Ok(g)
    case Malformed => Err
  }

  function Gather(opts: seq<Opt>, v6: bool): Result<Gathered> {
    if opts == [] then Ok(NOTHING)
    else
      match Gather(opts[..|opts| - 1], v6)
      case Ok(g) => Take(g, opts[|opts| - 1], v6)
      case Err => Err
  }

  /** Some option constrains the packet, conntrack state apart. */
  predicate Constrained(g: Gathered) {
    g.proto.Some? || g.src.Some? || g.dst.Some? || g.ifIn.Some? || g.ifOut.Some?
    || g.sport.Some? || g.dport.Some? || g.icmp.Some? || g.emptyIcmp
  }

  predicate AddrHolds(ip: Option<Ip>, addr: seq<Byte>) {
    match ip
    case Some(Net(bytes, ones)) => ones <= 8 * |bytes| && InPrefix(bytes, ones, addr)
    case Some(BadIp(_)) => false
    case _ => true
  }

  predicate GatheredHolds(g: Gathered, p: Packet) {
    && (g.proto.Some? ==> g.proto.value == AnyProto || ProtoNumber(g.proto.value) == Some(p.l4))
    && AddrHolds(g.src, p.src) && AddrHolds(g.dst, p.dst)
    && (g.ifIn.Some? ==> IfaceMatches(g.ifIn.value, p.iif))
    && (g.ifOut.Some? ==> IfaceMatches(g.ifOut.value, p.oif))
    && (g.sport.Some? ==> IsPorted(p.l4) && InSpans(g.sport.value, p.sport))
    && (g.dport.Some? ==> IsPorted(p.l4) && InSpans(g.dport.value, p.dport))
    && (g.states.Some? ==> p.ct in g.states.value)
    && (g.icmp.Some? ==> g.icmp.value.Some? && p.icmpType == g.icmp.value.value)
  }

  lemma TakeProto(g: Gathered, proto: Proto, v6: bool, p: Packet)
    requires Take(g, ProtoOpt(proto), v6).Ok?
    ensures GatheredHolds(Take(g, ProtoOpt(proto), v6).value, p) <==> GatheredHolds(g, p) && OptHolds(ProtoOpt(proto), p)
  {
  }

  lemma TakeAddr(g: Gathered, dst: bool, ip: Ip, v6: bool, p: Packet)
    requires Take(g, AddrOpt(dst, ip), v6).Ok?
    ensures GatheredHolds(Take(g, AddrOpt(dst, ip), v6).value, p) <==> GatheredHolds(g, p) && OptHolds(AddrOpt(dst, ip), p)
  {
  }

  lemma TakeIface(g: Gathered, output: bool, name: Name, v6: bool, p: Packet)
    requires Take(g, IfaceOpt(output, name), v6).Ok?
    ensures GatheredHolds(Take(g, IfaceOpt(output, name), v6).value, p)
       <==> GatheredHolds(g, p) && OptHolds(IfaceOpt(output, name), p)
  {
    InterfaceExact(name, if output then p.oif else p.iif);
  }

  lemma InterfaceExact(pat: Name, name: Name)
    ensures IfaceMatches(Interface(pat), name) <==> IfaceMatches(pat, name)
  {
  }

  lemma TakePort(g: Gathered, dst: bool, spans: seq<Span>, v6: bool, p: Packet)
    requires Take(g, PortOpt(dst, spans), v6).Ok?
    ensures GatheredHolds(Take(g, PortOpt(dst, spans), v6).value, p)
       <==> GatheredHolds(g, p) && OptHolds(PortOpt(dst, spans), p)
  {
  }

  lemma TakeState(g: Gathered, states: seq<CtState>, v6: bool, p: Packet)
    requires Take(g, StateOpt(states), v6).Ok?
    ensures GatheredHolds(Take(g, StateOpt(states), v6).value, p) <==> GatheredHolds(g, p) && OptHolds(StateOpt(states), p)
  {
  }

  lemma TakeIcmp(g: Gathered, icmpV6: bool, icmp: Option<Byte>, v6: bool, p: Packet)
    requires Take(g, IcmpOpt(icmpV6, icmp), v6).Ok?
    ensures GatheredHolds(Take(g, IcmpOpt(icmpV6, icmp), v6).value, p)
       <==> GatheredHolds(g, p) && OptHolds(IcmpOpt(icmpV6, icmp), p)
  {
  }

  predicate Matching(o: Opt) {
    o.ProtoOpt? || o.AddrOpt? || o.IfaceOpt? || o.PortOpt? || o.StateOpt? || o.IcmpOpt?
  }

  /** The remaining options set only what no packet is compared with. */
  predicate SameMatches(a: Gathered, b: Gathered) {
    && a.proto == b.proto && a.src == b.src && a.dst == b.dst && a.ifIn == b.ifIn && a.ifOut == b.ifOut
    && a.sport == b.sport && a.dport == b.dport && a.states == b.states && a.icmp == b.icmp
  }

  lemma TakeModule(g: Gathered, m: Module, v6: bool)
    requires Take(g, ModuleOpt(m), v6).Ok?
    ensures SameMatches(Take(g, ModuleOpt(m), v6).value, g)
  {
  }

  lemma TakeText(g: Gathered, o: Opt, v6: bool)
    requires Take(g, o, v6).Ok? && !Matching(o) && !o.ModuleOpt?
    ensures SameMatches(Take(g, o, v6).value, g)
  {
  }

  lemma TakeQuiet(g: Gathered, o: Opt, v6: bool)
    requires Take(g, o, v6).Ok? && !Matching(o)
    ensures SameMatches(Take(g, o, v6).value, g)
  {
    if o.ModuleOpt? {
      TakeModule(g, o.m, v6);
    } else {
      TakeText(g, o, v6);
    }
  }

  lemma SameMatchesHold(a: Gathered, b: Gathered, p: Packet)
    requires SameMatches(a, b)
    ensures GatheredHolds(a, p) <==> GatheredHolds(b, p)
  {
  }

  lemma TakeExact(g: Gathered, o: Opt, v6: bool, p: Packet)
    requires Take(g, o, v6).Ok?
    ensures GatheredHolds(Take(g, o, v6).value, p) <==> GatheredHolds(g, p) && OptHolds(o, p)
  {
    match o
    case ProtoOpt(proto) => TakeProto(g, proto, v6, p);
    case AddrOpt(dst, ip) => TakeAddr(g, dst, ip, v6, p);
    case IfaceOpt(output, name) => TakeIface(g, output, name, v6, p);
    case PortOpt(dst, spans) => TakePort(g, dst, spans, v6, p);
    case StateOpt(states) => TakeState(g, states, v6, p);
    case IcmpOpt(icmpV6, icmp) => TakeIcmp(g, icmpV6, icmp, v6, p);
    case Malformed =>
    case _ =>
      TakeQuiet(g, o, v6);
      SameMatchesHold(Take(g, o, v6).value, g, p);
  }

  ghost predicate WellGathered(g: Gathered, v6: bool) {
    && (g.src.Some? ==> FamilyIp(g.src.value, v6)) && (g.dst.Some? ==> FamilyIp(g.dst.value, v6))
    && (g.sport.Some? ==> GoodSpans(g.sport.value)) && (g.dport.Some? ==> GoodSpans(g.dport.value))
    && (g.proto.Some? ==> g.proto.value != UnknownProto)
  }

  lemma HoldsSnoc(opts: seq<Opt>, o: Opt, p: Packet)
    ensures Holds(opts + [o], p) <==> Holds(opts, p) && OptHolds(o, p)
  {
    assert forall i :: 0 <= i < |opts| ==> (opts + [o])[i] == opts[i];
    if Holds(opts + [o], p) {
      assert (opts + [o])[|opts|] == o;
      forall i | 0 <= i < |opts| ensures OptHolds(opts[i], p) {
        assert OptHolds((opts + [o])[i], p);
      }
    }
  }

  /** No option is lost and none is taken twice. */
  lemma {:induction false} GatherExact(opts: seq<Opt>, v6: bool, p: Packet)
    requires Gather(opts, v6).Ok?
    ensures GatheredHolds(Gather(opts, v6).value, p) <==> Holds(opts, p)
  {
    if opts != [] {
      var n := |opts| - 1;
      GatherExact(opts[..n], v6, p);
      TakeExact(Gather(opts[..n], v6).value, opts[n], v6, p);
      HoldsSnoc(opts[..n], opts[n], p);
      assert opts == opts[..n] + [opts[n]];
    }
  }

  lemma TakeTarget(g: Gathered, o: Opt, v6: bool)
    requires Take(g, o, v6).Ok?
    ensures Take(g, o, v6).value.target == if o.JumpOpt? then Some(o.target) else g.target
  {
  }

  predicate SameEnds(a: Gathered, b: Gathered) {
    a.proto == b.proto && a.src == b.src && a.dst == b.dst && a.sport == b.sport && a.dport == b.dport
  }

  lemma SameEndsWell(a: Gathered, b: Gathered, v6: bool)
    requires SameEnds(a, b) && WellGathered(b, v6)
    ensures WellGathered(a, v6)
  {
  }

  lemma TakeElsewhere(g: Gathered, o: Opt, v6: bool)
    requires Take(g, o, v6).Ok? && (o.IfaceOpt? || o.StateOpt? || o.IcmpOpt?)
    ensures SameEnds(Take(g, o, v6).value, g)
  {
  }

  lemma WellAddr(g: Gathered, dst: bool, ip: Ip, v6: bool)
    requires Take(g, AddrOpt(dst, ip), v6).Ok? && WellGathered(g, v6)
    ensures WellGathered(Take(g, AddrOpt(dst, ip), v6).value, v6)
  {
  }

  lemma WellPort(g: Gathered, dst: bool, spans: seq<Span>, v6: bool)
    requires Take(g, PortOpt(dst, spans), v6).Ok? && WellGathered(g, v6)
    ensures WellGathered(Take(g, PortOpt(dst, spans), v6).value, v6)
  {
  }

  lemma TakeWell(g: Gathered, o: Opt, v6: bool)
    requires Take(g, o, v6).Ok? && WellGathered(g, v6)
    ensures WellGathered(Take(g, o, v6).value, v6)
  {
    match o
    case ProtoOpt(_) =>
    case AddrOpt(dst, ip) => WellAddr(g, dst, ip, v6);
    case PortOpt(dst, spans) => WellPort(g, dst, spans, v6);
    case IfaceOpt(_, _) => TakeElsewhere(g, o, v6); SameEndsWell(Take(g, o, v6).value, g, v6);
    case StateOpt(_) => TakeElsewhere(g, o, v6); SameEndsWell(Take(g, o, v6).value, g, v6);
    case IcmpOpt(_, _) => TakeElsewhere(g, o, v6); SameEndsWell(Take(g, o, v6).value, g, v6);
    case Malformed =>
    case _ => TakeQuiet(g, o, v6); SameEndsWell(Take(g, o, v6).value, g, v6);
  }

  lemma {:induction false} GatherShape(opts: seq<Opt>, v6: bool)
    requires Gather(opts, v6).Ok?
    ensures Gather(opts, v6).value.target == TargetOf(opts)
    ensures WellGathered(Gather(opts, v6).value, v6)
  {
    if opts != [] {
      var n := |opts| - 1;
      GatherShape(opts[..n], v6);
      TakeTarget(Gather(opts[..n], v6).value, opts[n], v6);
      TakeWell(Gather(opts[..n], v6).value, opts[n], v6);
    }
  }

  // ---- the rule -----------------------------------------------------------------------------

  /** A rule, a representable no-op, an unconditional RETURN, or a refusal. */
  datatype Outcome = Emit(rule: Rule) | Skip | ReturnAlways | Refused

  function RangeOf(s: Span, proto: Proto): PortRange {
    PortRange(s.lo, s.hi, if proto == Tcp then TcpPort else UdpPort)
  }

  function RangesOf(spans: seq<Span>, proto: Proto): seq<PortRange> {
    seq(|spans|, i requires 0 <= i < |spans| => RangeOf(spans[i], proto))
  }

  /** Prefixes of length zero are spelled as the wildcard. */
  function CanonIp(ip: Option<Ip>): Ip {
    match ip
    case None => AnyIp
    case Some(Net(_, ones)) => if ones == 0 then AnyIp else ip.value
    case Some(other) => other
  }

  /** The ranges of one side, in the order Normalize leaves them. */
  function PortsOf(spans: Option<seq<Span>>, proto: Proto): seq<PortRange> {
    if spans.Some? then SortPorts(RangesOf(spans.value, proto)) else []
  }

  /** The id is drawn when the rule is stored. */
  function RuleOf(g: Gathered, dir: Direction, action: Action, v6: bool): Rule {
    var proto := if g.proto.Some? then g.proto.value else AnyProto;
    Rule("", action, dir, NoRouteDir,
         if g.ifIn.Some? then g.ifIn.value else [], if g.ifOut.Some? then g.ifOut.value else [],
         proto, if g.icmp.Some? then g.icmp.value else None,
         AddrSpec(CanonIp(g.src), PortsOf(g.sport, proto), ""), AddrSpec(CanonIp(g.dst), PortsOf(g.dport, proto), ""),
         "", "", LogNone, if g.comment.Some? then g.comment.value else "", 0, false, v6)
  }

  /** Contradictions between options: modules, ICMP types and ports need their -p. */
  predicate Contradictory(g: Gathered) {
    || (g.protoModule.Some? && g.proto != g.protoModule)
    || (g.icmp.Some? && (g.proto != Some(if g.icmpV6 then Icmpv6 else Icmp) || g.icmp.value.None?))
    || ((g.sport.Some? || g.dport.Some?) && g.proto != Some(Tcp) && g.proto != Some(Udp))
  }

  /** RELATED and ESTABLISHED, in any order, and nothing else. */
  predicate EstRelOnly(states: seq<CtState>) {
    && CtEstablished in states && CtRelated in states
    && forall i :: 0 <= i < |states| ==> states[i] == CtEstablished || states[i] == CtRelated
  }

  /** first: no rule of the chain has been emitted yet. */
  function Finish(g: Gathered, dir: Direction, v6: bool, first: bool): Outcome {
    if Contradictory(g) then Refused
    else if g.states.Some? then
      if g.conn && EstRelOnly(g.states.value) && g.target == Some(ToAccept) && !Constrained(g) && first then Skip else Refused
    else if g.reject.Some? && g.target != Some(ToReject) then Refused
    else
      match g.target
      case None => Skip
      case Some(ToAccept) => Emit(RuleOf(g, dir, Allow, v6))
      case Some(ToDrop) => Emit(RuleOf(g, dir, Deny, v6))
      case Some(ToReject) =>
        if g.reject == Some(OtherReject) then Refused else Emit(RuleOf(g, dir, Reject, v6))
      case Some(ToReturn) => if Constrained(g) then Refused else ReturnAlways
      case Some(ToOther) => Refused
  }

  function Parse(opts: seq<Opt>, dir: Direction, v6: bool, first: bool): Outcome {
    match Gather(opts, v6)
    case Err => Refused
    case Ok(g) => Finish(g, dir, v6, first)
  }

  method ParseSpec(opts: seq<Opt>, dir: Direction, v6: bool, first: bool) returns (out: Outcome)
    ensures out == Parse(opts, dir, v6, first)
  {
    var g := NOTHING;
    for i := 0 to |opts|
      invariant Gather(opts[..i], v6) == Ok(g)
    {
      assert opts[..i + 1][..i] == opts[..i];
      match Take(g, opts[i], v6) {
        case Err =>
          GatherErr(opts, i + 1, v6);
          return Refused;
        case Ok(next) => g := next;
      }
    }
    assert opts[..|opts|] == opts;
    out := Finish(g, dir, v6, first);
  }

  lemma {:induction false} GatherErr(opts: seq<Opt>, i: nat, v6: bool)
    requires i <= |opts| && Gather(opts[..i], v6).Err?
    ensures Gather(opts, v6).Err?
    decreases |opts|
  {
    if i == |opts| {
      assert opts[..i] == opts;
    } else {
      assert opts[..|opts| - 1][..i] == opts[..i];
      GatherErr(opts[..|opts| - 1], i, v6);
    }
  }

  // ---- exactness --------------------------------------------------------------------------------

  /** The ports of one side admit exactly the saved ranges. */
  lemma PortsOfExact(spans: Option<seq<Span>>, proto: Proto, port: nat)
    requires spans.Some? ==> GoodSpans(spans.value) && (proto == Tcp || proto == Udp)
    ensures PortsAdmit(PortsOf(spans, proto), proto == Tcp, port) <==> (spans.Some? ==> InSpans(spans.value, port))
    ensures spans.None? ==> PortsOf(spans, proto) == []
    ensures spans.Some? ==> PortsOf(spans, proto) != []
  {
    if spans.Some? {
      var ranges := RangesOf(spans.value, proto);
      SortAdmits(ranges, proto == Tcp, port);
      SortMembers(ranges);
      assert Selects(ranges[0], proto == Tcp);
      RangesAdmit(spans.value, proto, port);
    }
  }

  lemma RangesAdmit(spans: seq<Span>, proto: Proto, port: nat)
    requires proto == Tcp || proto == Udp
    ensures SomeAdmits(RangesOf(spans, proto), proto == Tcp, port) <==> InSpans(spans, port)
  {
    var ranges := RangesOf(spans, proto);
    if InSpans(spans, port) {
      var i :| 0 <= i < |spans| && spans[i].lo <= port <= spans[i].hi;
      assert Selects(ranges[i], proto == Tcp) && ranges[i].lo <= port <= ranges[i].hi;
    }
    if SomeAdmits(ranges, proto == Tcp, port) {
      var i :| 0 <= i < |ranges| && Selects(ranges[i], proto == Tcp) && ranges[i].lo <= port <= ranges[i].hi;
      assert spans[i].lo <= port <= spans[i].hi;
    }
  }

  lemma CanonIpExact(ip: Option<Ip>, v6: bool, sets: SetFn, addr: seq<Byte>, ports: seq<PortRange>)
    requires (ip.Some? ==> FamilyIp(ip.value, v6)) && |addr| == if v6 then 16 else 4
    ensures CanonIp(ip).Valid()
    ensures AddrMatches(AddrSpec(CanonIp(ip), ports, ""), sets, addr) <==> AddrHolds(ip, addr)
  {
    if ip.Some? && ip.value.Net? && ip.value.ones == 0 {
      WholeSpace(ip.value.bytes, addr);
    }
  }

  lemma WholeSpace(net: seq<Byte>, addr: seq<Byte>)
    requires |net| == |addr|
    ensures InPrefix(net, 0, addr)
  {
    ValBound(net);
    ValBound(addr);
    Bits.LowAll(Val(net), 8 * |net|);
    Bits.LowAll(Val(addr), 8 * |net|);
  }

  /** The made rule matches a packet of its family exactly when the saved rule does. */
  lemma RuleExact(g: Gathered, dir: Direction, action: Action, v6: bool, sets: SetFn, p: Packet)
    requires WellGathered(g, v6) && !Contradictory(g) && g.states.None?
    requires p.Valid() && p.v6 == v6
    ensures RuleOf(g, dir, action, v6).ValidAddrs()
    ensures Matches(RuleOf(g, dir, action, v6), v6, sets, p) <==> GatheredHolds(g, p)
  {
    var r := RuleOf(g, dir, action, v6);
    CanonIpExact(g.src, v6, sets, p.src, r.src.ports);
    CanonIpExact(g.dst, v6, sets, p.dst, r.dst.ports);
    ProtoPortsExact(g, r, p);
  }

  lemma ProtoPortsExact(g: Gathered, r: Rule, p: Packet)
    requires (g.sport.Some? ==> GoodSpans(g.sport.value)) && (g.dport.Some? ==> GoodSpans(g.dport.value))
    requires !Contradictory(g)
    requires r.proto == if g.proto.Some? then g.proto.value else AnyProto
    requires r.src.ports == PortsOf(g.sport, r.proto) && r.dst.ports == PortsOf(g.dport, r.proto)
    ensures ProtoMatches(r, p) && PortsMatch(r, p) <==>
      && (g.proto.Some? ==> g.proto.value == AnyProto || ProtoNumber(g.proto.value) == Some(p.l4))
      && (g.sport.Some? ==> IsPorted(p.l4) && InSpans(g.sport.value, p.sport))
      && (g.dport.Some? ==> IsPorted(p.l4) && InSpans(g.dport.value, p.dport))
  {
    PortsOfExact(g.sport, r.proto, p.sport);
    PortsOfExact(g.dport, r.proto, p.dport);
  }

  /** The action a target stands for. */
  function ActionOf(t: Target): Option<Action> {
    match t
    case ToAccept => Some(Allow)
    case ToDrop => Some(Deny)
    case ToReject => Some(Reject)
    case _ => None
  }

  predicate EstRel(p: Packet) {
    p.ct == CtEstablished || p.ct == CtRelated
  }

  /** What each accepted outcome says about the saved rule, outside the established path. */
  ghost predicate Faithful(out: Outcome, opts: seq<Opt>, dir: Direction, v6: bool, sets: SetFn, p: Packet) {
    match out
    case Emit(r) =>
      && r.ValidAddrs() && r.dir == dir && !r.disabled && r.expiresAt == 0
      && TargetOf(opts).Some? && ActionOf(TargetOf(opts).value) == Some(r.action)
      && (Matches(r, v6, sets, p) <==> Holds(opts, p))
    case Skip => TargetOf(opts).None? || !Holds(opts, p)
    case ReturnAlways => TargetOf(opts) == Some(ToReturn) && Holds(opts, p)
    case Refused => true
  }

  lemma FinishShape(g: Gathered, dir: Direction, v6: bool, first: bool)
    ensures match Finish(g, dir, v6, first)
      case Emit(r) =>
        && !Contradictory(g) && g.states.None? && g.target.Some? && ActionOf(g.target.value) == Some(r.action)
        && r == RuleOf(g, dir, r.action, v6)
      case Skip => g.target.None? || (g.states.Some? && EstRelOnly(g.states.value))
      case ReturnAlways => g.target == Some(ToReturn) && !Constrained(g) && g.states.None?
      case Refused => true
  {
  }

  lemma EstRelHolds(g: Gathered, p: Packet)
    requires g.states.Some? && EstRelOnly(g.states.value) && !EstRel(p)
    ensures !GatheredHolds(g, p)
  {
    assert p.ct !in g.states.value;
  }

  lemma FinishFaithful(g: Gathered, opts: seq<Opt>, dir: Direction, v6: bool, first: bool, sets: SetFn, p: Packet)
    requires WellGathered(g, v6) && p.Valid() && p.v6 == v6 && !EstRel(p)
    requires g.target == TargetOf(opts) && (GatheredHolds(g, p) <==> Holds(opts, p))
    ensures Faithful(Finish(g, dir, v6, first), opts, dir, v6, sets, p)
  {
    FinishShape(g, dir, v6, first);
    match Finish(g, dir, v6, first)
    case Emit(r) => RuleExact(g, dir, r.action, v6, sets, p);
    case Skip =>
      if g.target.Some? {
        EstRelHolds(g, p);
      }
    case ReturnAlways => Unconstrained(g, p);
    case Refused =>
  }

  lemma Unconstrained(g: Gathered, p: Packet)
    requires !Constrained(g) && g.states.None?
    ensures GatheredHolds(g, p)
  {
  }

  /** An accepted rule body keeps its meaning for every packet outside established and related. */
  lemma ParseFaithful(opts: seq<Opt>, dir: Direction, v6: bool, first: bool, sets: SetFn, p: Packet)
    requires p.Valid() && p.v6 == v6 && !EstRel(p)
    ensures Faithful(Parse(opts, dir, v6, first), opts, dir, v6, sets, p)
  {
    if Gather(opts, v6).Ok? {
      GatherExact(opts, v6, p);
      GatherShape(opts, v6);
      FinishFaithful(Gather(opts, v6).value, opts, dir, v6, first, sets, p);
    }
  }
}
