/** Which rules and dumps the iptables import accepts, stated on the options and lines themselves,
    and what it reads from them. */
module DumpAcceptance {
  import opened Bytes
  import opened Rules
  import opened Iptables
  import Store
  import IptSave
  import IptImport
  import IptPolicy

  // ---- options, one by one and in pairs --------------------------------------------------------------

  predicate GoodIp(ip: Ip, v6: bool) {
    ip == AnyIp || (ip.Net? && ip.Valid() && |ip.bytes| == if v6 then 16 else 4)
  }

  /** An option that is read at all. */
  predicate Readable(o: Opt, v6: bool) {
    match o
    case ProtoOpt(proto) => proto != UnknownProto
    case AddrOpt(_, ip) => GoodIp(ip, v6)
    case PortOpt(_, spans) => |spans| >= 1 && forall i :: 0 <= i < |spans| ==> spans[i].lo <= spans[i].hi <= 65535
    case ModuleOpt(m) => m != OtherModule
    case JumpOpt(target) => target != ToOther
    case Malformed => false
    case _ => true
  }

  /** Two options that may not stand in one rule, in this order. */
  predicate Clash(a: Opt, b: Opt) {
    || (a.ProtoOpt? && b.ProtoOpt?)
    || (a.AddrOpt? && b.AddrOpt? && a.dst == b.dst)
    || (a.IfaceOpt? && b.IfaceOpt? && a.output == b.output)
    || (a.PortOpt? && b.PortOpt? && a.dst == b.dst)
    || (a.ModuleOpt? && b.ModuleOpt? && ((a.m.ProtoModule? && b.m.ProtoModule?) || (a.m == ConnModule && b.m == ConnModule)))
    || (a.StateOpt? && b.StateOpt?)
    || (a.IcmpOpt? && (b.IcmpOpt? || b == EmptyIcmp))
    || (a.CommentOpt? && b.CommentOpt?)
    || (a.JumpOpt? && b.JumpOpt?)
  }

  ghost predicate WellWritten(opts: seq<Opt>, v6: bool) {
    && (forall i :: 0 <= i < |opts| ==> Readable(opts[i], v6))
    && (forall i, j :: 0 <= i < j < |opts| ==> !Clash(opts[i], opts[j]))
  }

  /** Whether what was gathered stands in the way of one more option. */
  predicate Taken(g: Gathered, o: Opt) {
    match o
    case ProtoOpt(_) => g.proto.Some?
    case AddrOpt(dst, _) => (if dst then g.dst else g.src).Some?
    case IfaceOpt(output, _) => (if output then g.ifOut else g.ifIn).Some?
    case PortOpt(dst, _) => (if dst then g.dport else g.sport).Some?
    case ModuleOpt(m) => (m.ProtoModule? && g.protoModule.Some?) || (m == ConnModule && g.conn)
    case StateOpt(_) => g.states.Some?
    case IcmpOpt(_, _) => g.icmp.Some?
    case EmptyIcmp => g.icmp.Some?
    case CommentOpt(_) => g.comment.Some?
    case JumpOpt(_) => g.target.Some?
    case _ => false
  }

  lemma TakeWhen(g: Gathered, o: Opt, v6: bool)
    ensures Take(g, o, v6).Ok? <==> Readable(o, v6) && !Taken(g, o)
  {
  }

  predicate Selecting(o: Opt) {
    o.ProtoOpt? || o.AddrOpt? || o.IfaceOpt?
  }

  predicate Typing(o: Opt) {
    o.PortOpt? || o.ModuleOpt? || o.StateOpt?
  }

  lemma ProtoTaken(g: Gathered, o: Opt, v6: bool, next: Opt)
    requires Take(g, o, v6).Ok? && o.ProtoOpt?
    ensures Taken(Take(g, o, v6).value, next) <==> Taken(g, next) || Clash(o, next)
  {
  }

  lemma AddrTaken(g: Gathered, o: Opt, v6: bool, next: Opt)
    requires Take(g, o, v6).Ok? && o.AddrOpt?
    ensures Taken(Take(g, o, v6).value, next) <==> Taken(g, next) || Clash(o, next)
  {
  }

  lemma IfaceTaken(g: Gathered, o: Opt, v6: bool, next: Opt)
    requires Take(g, o, v6).Ok? && o.IfaceOpt?
    ensures Taken(Take(g, o, v6).value, next) <==> Taken(g, next) || Clash(o, next)
  {
  }

  lemma PortTaken(g: Gathered, o: Opt, v6: bool, next: Opt)
    requires Take(g, o, v6).Ok? && o.PortOpt?
    ensures Taken(Take(g, o, v6).value, next) <==> Taken(g, next) || Clash(o, next)
  {
  }

  lemma ModuleTaken(g: Gathered, o: Opt, v6: bool, next: Opt)
    requires Take(g, o, v6).Ok? && o.ModuleOpt?
    ensures Taken(Take(g, o, v6).value, next) <==> Taken(g, next) || Clash(o, next)
  {
  }

  lemma StateTaken(g: Gathered, o: Opt, v6: bool, next: Opt)
    requires Take(g, o, v6).Ok? && o.StateOpt?
    ensures Taken(Take(g, o, v6).value, next) <==> Taken(g, next) || Clash(o, next)
  {
  }

  lemma OtherTaken(g: Gathered, o: Opt, v6: bool, next: Opt)
    requires Take(g, o, v6).Ok? && !Selecting(o) && !Typing(o)
    ensures Taken(Take(g, o, v6).value, next) <==> Taken(g, next) || Clash(o, next)
  {
  }

  lemma TakenAfter(g: Gathered, o: Opt, v6: bool, next: Opt)
    requires Take(g, o, v6).Ok?
    ensures Taken(Take(g, o, v6).value, next) <==> Taken(g, next) || Clash(o, next)
  {
    match o
    case ProtoOpt(_) => ProtoTaken(g, o, v6, next);
    case AddrOpt(_, _) => AddrTaken(g, o, v6, next);
    case IfaceOpt(_, _) => IfaceTaken(g, o, v6, next);
    case PortOpt(_, _) => PortTaken(g, o, v6, next);
    case ModuleOpt(_) => ModuleTaken(g, o, v6, next);
    case StateOpt(_) => StateTaken(g, o, v6, next);
    case _ => OtherTaken(g, o, v6, next);
  }

  lemma {:induction false} GatherWhen(opts: seq<Opt>, v6: bool)
    ensures Gather(opts, v6).Ok? <==> WellWritten(opts, v6)
    ensures Gather(opts, v6).Ok? ==>
      forall o :: Taken(Gather(opts, v6).value, o) <==> exists i :: 0 <= i < |opts| && Clash(opts[i], o)
  {
    if opts != [] {
      var n := |opts| - 1;
      var init := opts[..n];
      GatherWhen(init, v6);
      WrittenStep(init, opts[n], v6);
      assert opts == init + [opts[n]];
      if Gather(init, v6).Ok? {
        var g := Gather(init, v6).value;
        TakeWhen(g, opts[n], v6);
        if Take(g, opts[n], v6).Ok? {
          forall o ensures Taken(Gather(opts, v6).value, o) <==> exists i :: 0 <= i < |opts| && Clash(opts[i], o) {
            TakenAfter(g, opts[n], v6, o);
            ClashStep(init, opts[n], o);
          }
        }
      }
    }
  }

  lemma ClashStep(opts: seq<Opt>, last: Opt, o: Opt)
    ensures var all := opts + [last];
      (exists i :: 0 <= i < |all| && Clash(all[i], o)) <==> (exists i :: 0 <= i < |opts| && Clash(opts[i], o)) || Clash(last, o)
  {
    var all := opts + [last];
    assert all[|opts|] == last;
    if i :| 0 <= i < |opts| && Clash(opts[i], o) {
      assert Clash(all[i], o);
    }
  }

  lemma WrittenStep(opts: seq<Opt>, last: Opt, v6: bool)
    ensures WellWritten(opts + [last], v6)
      <==> && WellWritten(opts, v6) && Readable(last, v6) && !exists i :: 0 <= i < |opts| && Clash(opts[i], last)
  {
    var all := opts + [last];
    assert all[|opts|] == last && forall i :: 0 <= i < |opts| ==> all[i] == opts[i];
    if WellWritten(all, v6) {
      assert forall i :: 0 <= i < |opts| ==> !Clash(all[i], all[|opts|]);
    }
  }

  // ---- what is read ---------------------------------------------------------------------------------------

  /** g keeps what option o says. */
  predicate Keeps(g: Gathered, o: Opt) {
    match o
    case ProtoOpt(proto) => g.proto == Some(proto)
    case PortOpt(dst, spans) => (if dst then g.dport else g.sport) == Some(spans)
    case ModuleOpt(m) => (m == ConnModule && g.conn) || (m.ProtoModule? && g.protoModule == Some(m.proto))
    case StateOpt(states) => g.states == Some(states)
    case IcmpOpt(v6, icmp) => g.icmp == Some(icmp) && g.icmpV6 == v6
    case EmptyIcmp => g.emptyIcmp
    case CommentOpt(text) => g.comment == Some(text)
    case JumpOpt(target) => g.target == Some(target)
    case AddrOpt(dst, ip) => (if dst then g.dst else g.src) == Some(ip)
    case IfaceOpt(output, _) => (if output then g.ifOut else g.ifIn).Some?
    case _ => false
  }

  predicate Kept(o: Opt) {
    !o.IfaceOpt? && !o.RejectOpt? && o != Ignored && o != Malformed && o != ModuleOpt(PlainModule) && o != ModuleOpt(OtherModule)
  }

  lemma SelectingKeeps(g: Gathered, o: Opt, v6: bool, x: Opt)
    requires Take(g, o, v6).Ok? && Kept(x) && Selecting(o)
    ensures Keeps(Take(g, o, v6).value, x) <==> Keeps(g, x) || o == x
  {
  }

  lemma TypingKeeps(g: Gathered, o: Opt, v6: bool, x: Opt)
    requires Take(g, o, v6).Ok? && Kept(x) && Typing(o)
    ensures Keeps(Take(g, o, v6).value, x) <==> Keeps(g, x) || o == x
  {
  }

  lemma OtherKeeps(g: Gathered, o: Opt, v6: bool, x: Opt)
    requires Take(g, o, v6).Ok? && Kept(x) && !Selecting(o) && !Typing(o)
    ensures Keeps(Take(g, o, v6).value, x) <==> Keeps(g, x) || o == x
  {
  }

  lemma KeepsAfter(g: Gathered, o: Opt, v6: bool, x: Opt)
    requires Take(g, o, v6).Ok? && Kept(x)
    ensures Keeps(Take(g, o, v6).value, x) <==> Keeps(g, x) || o == x
  {
    if Selecting(o) {
      SelectingKeeps(g, o, v6, x);
    } else if Typing(o) {
      TypingKeeps(g, o, v6, x);
    } else {
      OtherKeeps(g, o, v6, x);
    }
  }

  lemma {:induction false} GatherKeeps(opts: seq<Opt>, v6: bool, x: Opt)
    requires Gather(opts, v6).Ok? && Kept(x)
    ensures Keeps(Gather(opts, v6).value, x) <==> x in opts
  {
    if opts != [] {
      var n := |opts| - 1;
      GatherKeeps(opts[..n], v6, x);
      KeepsAfter(Gather(opts[..n], v6).value, opts[n], v6, x);
      assert opts == opts[..n] + [opts[n]];
    }
  }

  /** The last reject option that names a kind wins; an empty one takes it back. */
  function LastReject(opts: seq<Opt>): RejectKind {
    if opts == [] then NoReject
    else if opts[|opts| - 1].RejectOpt? then opts[|opts| - 1].kind
    else LastReject(opts[..|opts| - 1])
  }

  lemma {:induction false} GatherReject(opts: seq<Opt>, v6: bool)
    requires Gather(opts, v6).Ok?
    ensures Gather(opts, v6).value.reject == if LastReject(opts) == NoReject then None else Some(LastReject(opts))
  {
    if opts != [] {
      GatherReject(opts[..|opts| - 1], v6);
    }
  }

  /** An option that narrows the rule to some packets, conntrack state apart. */
  predicate Narrows(o: Opt) {
    o.ProtoOpt? || o.AddrOpt? || o.IfaceOpt? || o.PortOpt? || o.IcmpOpt? || o.EmptyIcmp?
  }

  predicate Unnarrowed(opts: seq<Opt>) {
    forall i :: 0 <= i < |opts| ==> !Narrows(opts[i])
  }

  lemma {:induction false} GatherNarrows(opts: seq<Opt>, v6: bool)
    requires Gather(opts, v6).Ok?
    ensures Constrained(Gather(opts, v6).value) <==> !Unnarrowed(opts)
  {
    if opts != [] {
      var n := |opts| - 1;
      GatherNarrows(opts[..n], v6);
      NarrowsAfter(Gather(opts[..n], v6).value, opts[n], v6);
      assert Unnarrowed(opts) <==> Unnarrowed(opts[..n]) && !Narrows(opts[n]) by {
        assert forall i :: 0 <= i < n ==> opts[..n][i] == opts[i];
      }
    }
  }

  lemma NarrowsAfter(g: Gathered, o: Opt, v6: bool)
    requires Take(g, o, v6).Ok?
    ensures Constrained(Take(g, o, v6).value) <==> Constrained(g) || Narrows(o)
  {
  }

  // ---- one rule -----------------------------------------------------------------------------------------------

  /** Protocol modules and ICMP types need their -p, and ports need tcp or udp. */
  predicate FitsProtocol(opts: seq<Opt>, o: Opt) {
    match o
    case ModuleOpt(ProtoModule(proto)) => ProtoOpt(proto) in opts
    case IcmpOpt(v6, icmp) => icmp.Some? && ProtoOpt(if v6 then Icmpv6 else Icmp) in opts
    case PortOpt(_, _) => ProtoOpt(Tcp) in opts || ProtoOpt(Udp) in opts
    case _ => true
  }

  predicate Coherent(opts: seq<Opt>) {
    forall i :: 0 <= i < |opts| ==> FitsProtocol(opts, opts[i])
  }

  lemma KeepsOne(opts: seq<Opt>, v6: bool)
    requires Gather(opts, v6).Ok?
    ensures var g := Gather(opts, v6).value;
      && (forall proto :: g.proto == Some(proto) <==> ProtoOpt(proto) in opts)
      && (forall s :: g.sport == Some(s) <==> PortOpt(false, s) in opts)
      && (forall s :: g.dport == Some(s) <==> PortOpt(true, s) in opts)
      && (forall proto :: g.protoModule == Some(proto) <==> ModuleOpt(ProtoModule(proto)) in opts)
      && (forall b, t :: g.icmp == Some(t) && g.icmpV6 == b <==> IcmpOpt(b, t) in opts)
  {
    var g := Gather(opts, v6).value;
    forall proto ensures g.proto == Some(proto) <==> ProtoOpt(proto) in opts {
      GatherKeeps(opts, v6, ProtoOpt(proto));
    }
    forall s ensures g.sport == Some(s) <==> PortOpt(false, s) in opts {
      GatherKeeps(opts, v6, PortOpt(false, s));
    }
    forall s ensures g.dport == Some(s) <==> PortOpt(true, s) in opts {
      GatherKeeps(opts, v6, PortOpt(true, s));
    }
    forall proto ensures g.protoModule == Some(proto) <==> ModuleOpt(ProtoModule(proto)) in opts {
      GatherKeeps(opts, v6, ModuleOpt(ProtoModule(proto)));
    }
    forall b, t ensures g.icmp == Some(t) && g.icmpV6 == b <==> IcmpOpt(b, t) in opts {
      GatherKeeps(opts, v6, IcmpOpt(b, t));
    }
  }

  lemma CoherentIs(opts: seq<Opt>, v6: bool)
    requires Gather(opts, v6).Ok?
    ensures Coherent(opts) <==> !Contradictory(Gather(opts, v6).value)
  {
    var g := Gather(opts, v6).value;
    KeepsOne(opts, v6);
    if Coherent(opts) {
      assert g.protoModule.Some? ==> FitsProtocol(opts, ModuleOpt(ProtoModule(g.protoModule.value)));
      assert g.icmp.Some? ==> FitsProtocol(opts, IcmpOpt(g.icmpV6, g.icmp.value));
      assert g.sport.Some? ==> FitsProtocol(opts, PortOpt(false, g.sport.value));
      assert g.dport.Some? ==> FitsProtocol(opts, PortOpt(true, g.dport.value));
    } else {
      var i :| 0 <= i < |opts| && !FitsProtocol(opts, opts[i]);
      Misfit(opts, v6, opts[i]);
    }
  }

  lemma Misfit(opts: seq<Opt>, v6: bool, o: Opt)
    requires Gather(opts, v6).Ok? && o in opts && !FitsProtocol(opts, o)
    ensures Contradictory(Gather(opts, v6).value)
  {
    KeepsOne(opts, v6);
    match o
    case ModuleOpt(ProtoModule(proto)) => assert ModuleOpt(ProtoModule(proto)) in opts;
    case IcmpOpt(b, t) => assert IcmpOpt(b, t) in opts;
    case PortOpt(d, s) => assert PortOpt(d, s) in opts;
  }

  predicate HasStates(opts: seq<Opt>) {
    exists i :: 0 <= i < |opts| && opts[i].StateOpt?
  }

  /** The idiom in front of a chain: -m conntrack --ctstate RELATED,ESTABLISHED -j ACCEPT. */
  predicate Preamble(opts: seq<Opt>) {
    && ModuleOpt(ConnModule) in opts && JumpOpt(ToAccept) in opts && Unnarrowed(opts)
    && forall i :: 0 <= i < |opts| && opts[i].StateOpt? ==>
      && CtEstablished in opts[i].states && CtRelated in opts[i].states
      && CtNew !in opts[i].states && CtInvalid !in opts[i].states && CtUntracked !in opts[i].states
  }

  predicate Refusal(opts: seq<Opt>, first: bool) {
    || !Coherent(opts)
    || (HasStates(opts) && !(Preamble(opts) && first))
    || (!HasStates(opts) && LastReject(opts) != NoReject && JumpOpt(ToReject) !in opts)
    || (!HasStates(opts) && LastReject(opts) == OtherReject)
    || (!HasStates(opts) && JumpOpt(ToReturn) in opts && !Unnarrowed(opts))
  }

  lemma StatesKept(opts: seq<Opt>, v6: bool)
    requires Gather(opts, v6).Ok?
    ensures var g := Gather(opts, v6).value;
      && (HasStates(opts) <==> g.states.Some?)
      && (g.states.Some? ==> StateOpt(g.states.value) in opts)
      && (forall i :: 0 <= i < |opts| && opts[i].StateOpt? ==> g.states == Some(opts[i].states))
  {
    var g := Gather(opts, v6).value;
    forall i | 0 <= i < |opts| && opts[i].StateOpt? ensures g.states == Some(opts[i].states) {
      GatherKeeps(opts, v6, opts[i]);
    }
    if g.states.Some? {
      GatherKeeps(opts, v6, StateOpt(g.states.value));
      var i :| 0 <= i < |opts| && opts[i] == StateOpt(g.states.value);
      assert opts[i].StateOpt?;
    }
  }

  lemma TargetsKept(opts: seq<Opt>, v6: bool, t: Target)
    requires Gather(opts, v6).Ok?
    ensures var g := Gather(opts, v6).value; g.target == Some(t) <==> JumpOpt(t) in opts
    ensures Gather(opts, v6).value.conn <==> ModuleOpt(ConnModule) in opts
  {
    GatherKeeps(opts, v6, JumpOpt(t));
    GatherKeeps(opts, v6, ModuleOpt(ConnModule));
  }

  lemma PreambleIs(opts: seq<Opt>, v6: bool)
    requires Gather(opts, v6).Ok? && HasStates(opts)
    ensures var g := Gather(opts, v6).value;
      g.states.Some? && (Preamble(opts) <==> g.conn && EstRelOnly(g.states.value) && g.target == Some(ToAccept) && !Constrained(g))
  {
    var g := Gather(opts, v6).value;
    StatesKept(opts, v6);
    TargetsKept(opts, v6, ToAccept);
    GatherNarrows(opts, v6);
    OnlyTwoStates(g.states.value);
    var i :| 0 <= i < |opts| && opts[i] == StateOpt(g.states.value);
    assert opts[i].StateOpt?;
  }

  lemma OnlyTwoStates(states: seq<CtState>)
    ensures EstRelOnly(states)
      <==> && CtEstablished in states && CtRelated in states
           && CtNew !in states && CtInvalid !in states && CtUntracked !in states
  {
  }

  lemma TargetIs(opts: seq<Opt>, v6: bool)
    requires Gather(opts, v6).Ok?
    ensures forall t :: Gather(opts, v6).value.target == Some(t) <==> JumpOpt(t) in opts
  {
    forall t ensures Gather(opts, v6).value.target == Some(t) <==> JumpOpt(t) in opts {
      TargetsKept(opts, v6, t);
    }
  }

  /** A rule body is refused exactly if it is not well written or one of the listed combinations. */
  lemma RefusedIff(opts: seq<Opt>, dir: Direction, v6: bool, first: bool)
    ensures Parse(opts, dir, v6, first) == Refused <==> !WellWritten(opts, v6) || Refusal(opts, first)
  {
    GatherWhen(opts, v6);
    if Gather(opts, v6).Ok? {
      CoherentIs(opts, v6);
      StatesKept(opts, v6);
      GatherNarrows(opts, v6);
      GatherReject(opts, v6);
      if HasStates(opts) {
        PreambleIs(opts, v6);
      }
      TargetIs(opts, v6);
    }
  }

  function JumpFor(a: Action): Target {
    match a
    case Allow => ToAccept
    case Deny => ToDrop
    case Reject => ToReject
    case _ => ToOther
  }

  /** An accepted body becomes a rule of its target, nothing (without a target, or as the
      preamble), or the end of the chain. */
  lemma AcceptedIs(opts: seq<Opt>, dir: Direction, v6: bool, first: bool)
    ensures var out := Parse(opts, dir, v6, first);
      && (out == Skip ==> HasStates(opts) || forall t :: JumpOpt(t) !in opts)
      && (out == ReturnAlways ==> JumpOpt(ToReturn) in opts && Unnarrowed(opts))
      && (out.Emit? ==> !HasStates(opts) && JumpOpt(JumpFor(out.rule.action)) in opts)
  {
    if Gather(opts, v6).Ok? {
      FinishShape(Gather(opts, v6).value, dir, v6, first);
      StatesKept(opts, v6);
      GatherNarrows(opts, v6);
      TargetIs(opts, v6);
    }
  }

  /** The emitted rule carries the comment of the dump, and neither profile, log flag nor expiry. */
  lemma EmitCarries(opts: seq<Opt>, dir: Direction, v6: bool, first: bool)
    requires Parse(opts, dir, v6, first).Emit?
    ensures var r := Parse(opts, dir, v6, first).rule;
      && (forall text :: CommentOpt(text) in opts ==> r.comment == text)
      && ((forall text :: CommentOpt(text) !in opts) ==> r.comment == "")
      && r.dir == dir && r.v6 == v6 && r.dapp == "" && r.sapp == "" && r.log == LogNone && !r.disabled && r.expiresAt == 0
      && r.src.setName == "" && r.dst.setName == ""
  {
    var g := Gather(opts, v6).value;
    FinishShape(g, dir, v6, first);
    CommentIs(opts, v6);
  }

  lemma CommentIs(opts: seq<Opt>, v6: bool)
    requires Gather(opts, v6).Ok?
    ensures forall text :: CommentOpt(text) in opts <==> Gather(opts, v6).value.comment == Some(text)
  {
    forall text ensures CommentOpt(text) in opts <==> Gather(opts, v6).value.comment == Some(text) {
      GatherKeeps(opts, v6, CommentOpt(text));
    }
  }

  // ---- one dump ------------------------------------------------------------------------------------------------

  /** The chains of another table that carry a policy. */
  predicate PolicyChain(table: string, chain: string) {
    || (table == "mangle" && chain in ["INPUT", "OUTPUT", "FORWARD", "PREROUTING", "POSTROUTING"])
    || (table in ["nat", "raw", "security"] && chain in ["PREROUTING", "POSTROUTING"])
  }

  /** A table other than filter that the import cannot represent. */
  ghost predicate Foreign(lines: seq<IptSave.Line>) {
    exists t, c :: t != "filter" && Occupied(lines, t, c)
  }

  predicate Occupied(lines: seq<IptSave.Line>, t: string, c: string) {
    || IptSave.Restored(lines, t, c) != []
    || (PolicyChain(t, c) && IptSave.Declared(lines, t, c) != IptSave.Unset && IptSave.Declared(lines, t, c) != IptSave.AcceptToken)
  }

  lemma PopulatedIs(table: string, name: string, c: IptSave.Chain)
    requires table != "filter"
    ensures IptImport.Populated(table, name, c)
      <==> c.rules != [] || (PolicyChain(table, name) && c.policy != IptSave.Unset && c.policy != IptSave.AcceptToken)
  {
  }

  lemma ForeignIs(lines: seq<IptSave.Line>)
    requires IptSave.Parsed(lines).Ok?
    ensures var s := IptSave.Parsed(lines).value;
      Foreign(lines) <==> exists t :: t in s.tables && t != "filter" && IptImport.BadTable(t, s.tables[t])
  {
    var s := IptSave.Parsed(lines).value;
    forall t, c ensures
      && IptSave.ChainIn(s, t, c).rules == IptSave.Restored(lines, t, c)
      && IptSave.ChainIn(s, t, c).policy == IptSave.Declared(lines, t, c)
    {
      IptSave.FoldExact(lines, t, c);
    }
    if Foreign(lines) {
      var t, c :| t != "filter" && Occupied(lines, t, c);
      OccupiedBad(lines, s, t, c);
    }
    if t :| t in s.tables && t != "filter" && IptImport.BadTable(t, s.tables[t]) {
      var c :| c in s.tables[t].chains && IptImport.Populated(t, c, s.tables[t].chains[c]);
      PopulatedIs(t, c, s.tables[t].chains[c]);
      assert IptSave.ChainIn(s, t, c) == s.tables[t].chains[c];
      assert Occupied(lines, t, c);
    }
  }

  lemma OccupiedBad(lines: seq<IptSave.Line>, s: IptSave.Save, t: string, c: string)
    requires IptSave.Parsed(lines) == Ok(s) && t != "filter" && Occupied(lines, t, c)
    ensures t in s.tables && IptImport.BadTable(t, s.tables[t])
  {
    IptSave.FoldExact(lines, t, c);
    assert c in s.tables[t].chains;
    PopulatedIs(t, c, s.tables[t].chains[c]);
  }

  /** A dump with rules or policies in another table is refused as a whole. */
  lemma ForeignRefused(lines: seq<IptSave.Line>, v6: bool)
    requires Foreign(lines)
    ensures IptImport.Streamed(lines, v6) == Err
  {
    if IptSave.Parsed(lines).Ok? {
      ForeignIs(lines);
    }
  }

  function Hook(d: Direction): string {
    match d
    case In => "INPUT"
    case Out => "OUTPUT"
    case Routed => "FORWARD"
  }

  predicate BrokenChain(c: IptSave.Chain, d: Direction, v6: bool) {
    c.policy == IptSave.BadToken || IptImport.ChainRules(c.rules, d, v6, 0).Err?
  }

  lemma {:induction false} TableBroken(t: IptSave.Table, names: seq<string>, v6: bool)
    ensures IptImport.TableRules(t, names, v6).Err?
      <==> exists d :: Hook(d) in names && BrokenChain(IptSave.Lookup(t, Hook(d)), d, v6)
  {
    if names != [] {
      TableBroken(t, names[1..], v6);
      assert names == [names[0]] + names[1..];
      forall d: Direction ensures Hook(d) == names[0] <==> IptImport.BuiltinDir(names[0]) == Some(d) {
        IptImport.BuiltinNames(names[0], d);
      }
    }
  }

  /** A dump is refused exactly if it cannot be read, another table is in use, or a builtin chain
      has an unknown policy or a rule that is refused before its end. */
  lemma StreamRefusedIff(lines: seq<IptSave.Line>, v6: bool)
    ensures IptImport.Streamed(lines, v6).Err?
      <==> || IptSave.Parsed(lines).Err? || Foreign(lines)
           || (exists d :: BrokenChain(IptSave.Chain(IptSave.Declared(lines, "filter", Hook(d)), false,
                                                     IptSave.Restored(lines, "filter", Hook(d))), d, v6))
  {
    if IptSave.Parsed(lines).Ok? {
      var s := IptSave.Parsed(lines).value;
      ForeignIs(lines);
      forall d ensures
        && IptSave.ChainIn(s, "filter", Hook(d)).rules == IptSave.Restored(lines, "filter", Hook(d))
        && IptSave.ChainIn(s, "filter", Hook(d)).policy == IptSave.Declared(lines, "filter", Hook(d))
      {
        IptSave.FoldExact(lines, "filter", Hook(d));
      }
      IptSave.FoldExact(lines, "filter", "");
      if "filter" in s.tables {
        TableBroken(s.tables["filter"], s.tables["filter"].order, v6);
      }
      BrokenIn(lines, s, v6);
    }
  }

  lemma BrokenIn(lines: seq<IptSave.Line>, s: IptSave.Save, v6: bool)
    requires IptSave.Parsed(lines) == Ok(s) && IptSave.WellFormed(s)
    requires forall d ::
      && IptSave.ChainIn(s, "filter", Hook(d)).rules == IptSave.Restored(lines, "filter", Hook(d))
      && IptSave.ChainIn(s, "filter", Hook(d)).policy == IptSave.Declared(lines, "filter", Hook(d))
    ensures (exists d :: BrokenChain(IptSave.Chain(IptSave.Declared(lines, "filter", Hook(d)), false,
                                                   IptSave.Restored(lines, "filter", Hook(d))), d, v6))
      <==> "filter" in s.tables
           && exists d :: Hook(d) in s.tables["filter"].order && BrokenChain(IptSave.Lookup(s.tables["filter"], Hook(d)), d, v6)
  {
    forall d: Direction ensures
      BrokenChain(IptSave.Chain(IptSave.Declared(lines, "filter", Hook(d)), false, IptSave.Restored(lines, "filter", Hook(d))), d, v6)
      <==> "filter" in s.tables && Hook(d) in s.tables["filter"].order
           && BrokenChain(IptSave.Lookup(s.tables["filter"], Hook(d)), d, v6)
    {
    }
  }

  // ---- both dumps ----------------------------------------------------------------------------------------------

  /** The chains of the filter table give no rule and declare no policy. */
  ghost predicate SaysNothing(lines: seq<IptSave.Line>, v6: bool) {
    forall d :: IptSave.Declared(lines, "filter", Hook(d)) == IptSave.Unset
                && IptImport.ChainRules(IptSave.Restored(lines, "filter", Hook(d)), d, v6, 0) == Ok([])
  }

  lemma {:induction false} TableEmpty(t: IptSave.Table, names: seq<string>, v6: bool)
    requires IptImport.TableRules(t, names, v6).Ok?
    ensures IptImport.TableRules(t, names, v6).value == []
      <==> forall d :: Hook(d) in names ==> IptImport.ChainRules(IptSave.Lookup(t, Hook(d)).rules, d, v6, 0) == Ok([])
  {
    if names != [] {
      assert names == [names[0]] + names[1..];
      forall d: Direction ensures Hook(d) == names[0] <==> IptImport.BuiltinDir(names[0]) == Some(d) {
        IptImport.BuiltinNames(names[0], d);
      }
      TableEmpty(t, names[1..], v6);
    }
  }

  lemma StreamEmpty(lines: seq<IptSave.Line>, v6: bool)
    requires IptImport.Streamed(lines, v6).Ok?
    ensures IptImport.Streamed(lines, v6).value.Empty() <==> SaysNothing(lines, v6)
  {
    var s := IptSave.Parsed(lines).value;
    forall d ensures
      && IptSave.ChainIn(s, "filter", Hook(d)).rules == IptSave.Restored(lines, "filter", Hook(d))
      && IptSave.ChainIn(s, "filter", Hook(d)).policy == IptSave.Declared(lines, "filter", Hook(d))
    {
      IptSave.FoldExact(lines, "filter", Hook(d));
    }
    if "filter" in s.tables {
      IptSave.FoldExact(lines, "filter", "");
      FilterEmpty(s, v6);
    }
  }

  lemma FilterEmpty(s: IptSave.Save, v6: bool)
    requires IptImport.StreamOf(s, v6).Ok? && "filter" in s.tables && IptSave.Orderly(s.tables["filter"])
    ensures IptImport.StreamOf(s, v6).value.Empty()
      <==> forall d :: IptSave.ChainIn(s, "filter", Hook(d)).policy == IptSave.Unset
                       && IptImport.ChainRules(IptSave.ChainIn(s, "filter", Hook(d)).rules, d, v6, 0) == Ok([])
  {
    var t := s.tables["filter"];
    TableEmpty(t, t.order, v6);
    TableBroken(t, t.order, v6);
    forall d ensures Hook(d) !in t.order ==> IptSave.Lookup(t, Hook(d)) == IptSave.NO_CHAIN {
    }
    assert Hook(In) == "INPUT" && Hook(Out) == "OUTPUT" && Hook(Routed) == "FORWARD";
  }

  /** An import is refused exactly if one of its dumps is, or if they say nothing at all. */
  lemma ImportRefusedIff(v4: Option<seq<IptSave.Line>>, v6: Option<seq<IptSave.Line>>, st: Store.State, ids: IptPolicy.Draws)
    ensures IptPolicy.Import(v4, v6, st, ids).Err?
      <==> || (v4.Some? && IptImport.Streamed(v4.value, false).Err?)
           || (v6.Some? && IptImport.Streamed(v6.value, true).Err?)
           || ((v4.Some? ==> SaysNothing(v4.value, false)) && (v6.Some? ==> SaysNothing(v6.value, true)))
  {
    if v4.Some? && IptImport.Streamed(v4.value, false).Ok? {
      StreamEmpty(v4.value, false);
    }
    if v6.Some? && IptImport.Streamed(v6.value, true).Ok? {
      StreamEmpty(v6.value, true);
    }
  }

  // ---- one line ------------------------------------------------------------------------------------------------

  ghost predicate Opened(lines: seq<IptSave.Line>, table: string) {
    IptSave.OpenTable(table) in lines
  }

  predicate DeclaresAt(lines: seq<IptSave.Line>, i: nat, table: string, chain: string)
    requires i < |lines|
  {
    lines[i].DeclareChain? && lines[i].chain == chain && IptSave.Open(lines[..i]) == Some(table)
  }

  ghost predicate DeclaredBefore(lines: seq<IptSave.Line>, table: string, chain: string) {
    exists i :: 0 <= i < |lines| && DeclaresAt(lines, i, table, chain)
  }

  lemma DeclaredStep(lines: seq<IptSave.Line>, line: IptSave.Line, table: string, chain: string)
    ensures DeclaredBefore(lines + [line], table, chain)
      <==> DeclaredBefore(lines, table, chain)
           || (line.DeclareChain? && line.chain == chain && IptSave.Open(lines) == Some(table))
  {
    var all := lines + [line];
    forall i | 0 <= i < |lines| ensures DeclaresAt(all, i, table, chain) <==> DeclaresAt(lines, i, table, chain) {
      assert all[..i] == lines[..i];
    }
    assert all[..|lines|] == lines && all[|lines|] == line;
    if DeclaredBefore(lines, table, chain) {
      var i :| 0 <= i < |lines| && DeclaresAt(lines, i, table, chain);
      assert DeclaresAt(all, i, table, chain);
    }
    if line.DeclareChain? && line.chain == chain && IptSave.Open(lines) == Some(table) {
      assert DeclaresAt(all, |lines|, table, chain);
    }
  }

  /** The tables opened and the chains declared so far. */
  ghost predicate Tracks(s: IptSave.Save, lines: seq<IptSave.Line>, table: string, chain: string) {
    && (table in s.tables <==> Opened(lines, table))
    && (IptSave.ChainIn(s, table, chain).declared <==> DeclaredBefore(lines, table, chain))
  }

  lemma {:induction false} FoldTracks(lines: seq<IptSave.Line>, table: string, chain: string)
    requires IptSave.Fold(lines).Ok?
    ensures Tracks(IptSave.Fold(lines).value, lines, table, chain)
  {
    if lines != [] {
      var n := |lines| - 1;
      FoldTracks(lines[..n], table, chain);
      IptSave.FoldExact(lines[..n], table, chain);
      TracksStep(IptSave.Fold(lines[..n]).value, lines[..n], lines[n], table, chain);
      assert lines == lines[..n] + [lines[n]];
    }
  }

  lemma TracksStep(s: IptSave.Save, lines: seq<IptSave.Line>, line: IptSave.Line, table: string, chain: string)
    requires IptSave.WellFormed(s) && s.current == IptSave.Open(lines) && IptSave.Step(s, line).Ok?
    requires Tracks(s, lines, table, chain)
    ensures Tracks(IptSave.Step(s, line).value, lines + [line], table, chain)
  {
    DeclaredStep(lines, line, table, chain);
    TablesStep(s, line, table, chain);
  }

  lemma FoldTables(lines: seq<IptSave.Line>, table: string, chain: string)
    requires IptSave.Fold(lines).Ok?
    ensures var s := IptSave.Fold(lines).value;
      && IptSave.WellFormed(s) && s.current == IptSave.Open(lines)
      && Tracks(s, lines, table, chain)
      && IptSave.ChainIn(s, table, chain).rules == IptSave.Restored(lines, table, chain)
  {
    IptSave.FoldExact(lines, table, chain);
    FoldTracks(lines, table, chain);
  }

  lemma TablesStep(s: IptSave.Save, line: IptSave.Line, table: string, chain: string)
    requires IptSave.WellFormed(s) && IptSave.Step(s, line).Ok?
    ensures var after := IptSave.Step(s, line).value;
      && (table in after.tables <==> table in s.tables || line == IptSave.OpenTable(table))
      && (IptSave.ChainIn(after, table, chain).declared
          <==> IptSave.ChainIn(s, table, chain).declared || (line.DeclareChain? && line.chain == chain && s.current == Some(table)))
  {
    if s.current == Some(table) {
      IptSave.StepChains(s, line, chain);
    } else {
      IptSave.StepElsewhere(s, line, table, chain);
    }
  }

  /** A table opens outside the others and once, everything but comments stands in a table, a chain
      is declared once, and an insert names a place the chain has. */
  predicate LineFits(open: Option<string>, seen: bool, declared: bool, length: nat, line: IptSave.Line) {
    match line
    case Comment => true
    case OpenTable(_) => open == None && !seen
    case DeclareChain(_, _) => open != None && !declared
    case AppendRule(_, _) => open != None
    case InsertRule(_, pos, _) => open != None && 1 <= pos <= length + 1
    case Commit => open != None
    case BadLine => false
  }

  ghost predicate Fits(lines: seq<IptSave.Line>, line: IptSave.Line) {
    var open := IptSave.Open(lines);
    var table := if line.OpenTable? then line.table else if open.Some? then open.value else "";
    var chain := if line.DeclareChain? || line.AppendRule? || line.InsertRule? then line.chain else "";
    LineFits(open, Opened(lines, table), DeclaredBefore(lines, table, chain), |IptSave.Restored(lines, table, chain)|, line)
  }

  lemma StepFits(lines: seq<IptSave.Line>, line: IptSave.Line)
    requires IptSave.Fold(lines).Ok?
    ensures IptSave.Step(IptSave.Fold(lines).value, line).Ok? <==> Fits(lines, line)
  {
    var open := IptSave.Open(lines);
    var table := if line.OpenTable? then line.table else if open.Some? then open.value else "";
    var chain := if line.DeclareChain? || line.AppendRule? || line.InsertRule? then line.chain else "";
    FoldTables(lines, table, chain);
  }

  ghost predicate FitsAt(lines: seq<IptSave.Line>, i: nat)
    requires i < |lines|
  {
    Fits(lines[..i], lines[i])
  }

  lemma FitsBefore(lines: seq<IptSave.Line>, n: nat, i: nat)
    requires i < n <= |lines|
    ensures FitsAt(lines[..n], i) <==> FitsAt(lines, i)
  {
    assert lines[..n][..i] == lines[..i];
  }

  lemma {:induction false} FoldFits(lines: seq<IptSave.Line>)
    ensures IptSave.Fold(lines).Ok? <==> forall i :: 0 <= i < |lines| ==> FitsAt(lines, i)
  {
    if lines != [] {
      var n := |lines| - 1;
      FoldFits(lines[..n]);
      forall i | 0 <= i < n ensures FitsAt(lines[..n], i) <==> FitsAt(lines, i) {
        FitsBefore(lines, n, i);
      }
      if IptSave.Fold(lines[..n]).Ok? {
        StepFits(lines[..n], lines[n]);
        assert FitsAt(lines, n) <==> IptSave.Fold(lines).Ok?;
      }
    }
  }

  /** A dump is read exactly if each of its lines fits behind the ones before it and the last table
      is closed. */
  lemma DumpReadIff(lines: seq<IptSave.Line>)
    ensures IptSave.Parsed(lines).Ok?
      <==> (forall i :: 0 <= i < |lines| ==> FitsAt(lines, i)) && IptSave.Open(lines) == None
  {
    FoldFits(lines);
    if IptSave.Fold(lines).Ok? {
      FoldTables(lines, "", "");
    }
  }

  lemma AppendRestores(lines: seq<IptSave.Line>, table: string, chain: string, spec: IptSave.Spec)
    requires IptSave.Open(lines) == Some(table)
    ensures IptSave.Restored(lines + [IptSave.AppendRule(chain, spec)], table, chain) == IptSave.Restored(lines, table, chain) + [spec]
  {
    var a := IptSave.AppendRule(chain, spec);
    assert (lines + [a])[..|lines|] == lines;
  }

  /** out is was with the rule at its place and the later rules one place down. */
  predicate PutAt(was: seq<IptSave.Spec>, pos: nat, spec: IptSave.Spec, out: seq<IptSave.Spec>)
    requires 1 <= pos <= |was| + 1
  {
    && |out| == |was| + 1 && out[pos - 1] == spec
    && (forall j :: 0 <= j < pos - 1 ==> out[j] == was[j])
    && (forall j :: pos - 1 <= j < |was| ==> out[j + 1] == was[j])
  }

  lemma InsertPuts(was: seq<IptSave.Spec>, pos: nat, spec: IptSave.Spec)
    requires 1 <= pos <= |was| + 1
    ensures PutAt(was, pos, spec, IptSave.Inserted(was, pos, spec))
  {
  }

  /** What one rule line does to the chain it names: an append puts it last, an insert at its place. */
  lemma LineRestores(lines: seq<IptSave.Line>, table: string, chain: string, pos: nat, spec: IptSave.Spec)
    requires IptSave.Open(lines) == Some(table)
    ensures IptSave.Restored(lines + [IptSave.AppendRule(chain, spec)], table, chain) == IptSave.Restored(lines, table, chain) + [spec]
    ensures 1 <= pos <= |IptSave.Restored(lines, table, chain)| + 1 ==>
      PutAt(IptSave.Restored(lines, table, chain), pos, spec,
            IptSave.Restored(lines + [IptSave.InsertRule(chain, pos, spec)], table, chain))
  {
    AppendRestores(lines, table, chain, spec);
    var b := IptSave.InsertRule(chain, pos, spec);
    assert (lines + [b])[..|lines|] == lines;
    if 1 <= pos <= |IptSave.Restored(lines, table, chain)| + 1 {
      InsertPuts(IptSave.Restored(lines, table, chain), pos, spec);
    }
  }
}
