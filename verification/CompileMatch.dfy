/** The compiled match of a rule variant accepts exactly the packets the rule means. */
module CompileMatch {
  import opened Bits
  import opened Bytes
  import opened Cidr
  import opened Rules
  import opened Store
  import opened Nft
  import opened Compile

  /** es is a pure test of `cond`: it neither logs, draws a limiter, nor leaves the chain. */
  ghost predicate Tests(env: Env, sets: map<SetKey, SetBody>, es: seq<Expr>, cond: bool)
    requires env.pkt.Valid()
  {
    forall here, st, reg {:trigger Exec(env, sets, here, es, st, reg)} ::
      var f := Exec(env, sets, here, es, st, reg);
      if cond then f.Go? && f.st == st else f == Break(st)
  }

  lemma TestsNone(env: Env, sets: map<SetKey, SetBody>)
    requires env.pkt.Valid()
    ensures Tests(env, sets, [], true)
  {
  }

  lemma TestsConcat(env: Env, sets: map<SetKey, SetBody>, a: seq<Expr>, b: seq<Expr>, ca: bool, cb: bool)
    requires env.pkt.Valid() && Tests(env, sets, a, ca)
    requires ca ==> Tests(env, sets, b, cb)
    ensures Tests(env, sets, a + b, ca && cb)
  {
    forall here, st, reg ensures
      var f := Exec(env, sets, here, a + b, st, reg);
      if ca && cb then f.Go? && f.st == st else f == Break(st)
    {
      ExecConcat(env, sets, here, a, b, st, reg);
    }
  }

  /** A load followed by one comparison. */
  lemma ExecTwo(env: Env, sets: map<SetKey, SetBody>, here: Chain, x: Expr, y: Expr, st: St, reg: seq<Byte>)
    requires env.pkt.Valid()
    ensures Exec(env, sets, here, [x, y], st, reg) ==
      match ExecOne(env, sets, here, x, st, reg)
      case Go(st', reg') => ExecOne(env, sets, here, y, st', reg')
      case other => other
  {
    assert [x, y][1..] == [y] && [y][1..] == [];
    match ExecOne(env, sets, here, x, st, reg) {
      case Go(st', reg') =>
        assert Exec(env, sets, here, [y], st', reg') == ExecOne(env, sets, here, y, st', reg');
      case _ =>
    }
  }

  lemma ExecThree(env: Env, sets: map<SetKey, SetBody>, here: Chain, x: Expr, y: Expr, z: Expr, st: St, reg: seq<Byte>)
    requires env.pkt.Valid()
    ensures Exec(env, sets, here, [x, y, z], st, reg) ==
      match ExecOne(env, sets, here, x, st, reg)
      case Go(st', reg') => Exec(env, sets, here, [y, z], st', reg')
      case other => other
  {
    assert [x, y, z][1..] == [y, z];
  }

  // ---- the parts of a match --------------------------------------------------------

  lemma TestsFamily(env: Env, sets: map<SetKey, SetBody>, v6: bool)
    requires env.pkt.Valid()
    ensures Tests(env, sets, FamilyExprs(v6), env.pkt.v6 == v6)
  {
    forall here, st, reg ensures
      var f := Exec(env, sets, here, FamilyExprs(v6), st, reg);
      if env.pkt.v6 == v6 then f.Go? && f.st == st else f == Break(st)
    {
      ExecTwo(env, sets, here, Meta(NfProto), Cmp(true, [if v6 then 10 else 2]), st, reg);
    }
  }

  lemma TestsL4(env: Env, sets: map<SetKey, SetBody>, num: Byte)
    requires env.pkt.Valid()
    ensures Tests(env, sets, L4Exprs(num), env.pkt.l4 == num)
  {
    forall here, st, reg ensures
      var f := Exec(env, sets, here, L4Exprs(num), st, reg);
      if env.pkt.l4 == num then f.Go? && f.st == st else f == Break(st)
    {
      ExecTwo(env, sets, here, Meta(L4Proto), Cmp(true, [num]), st, reg);
    }
  }

  lemma TestsIcmp(env: Env, sets: map<SetKey, SetBody>, t: Byte)
    requires env.pkt.Valid() && (env.pkt.l4 == 1 || env.pkt.l4 == 58)
    ensures Tests(env, sets, IcmpExprs(t), env.pkt.icmpType == t)
  {
    forall here, st, reg ensures
      var f := Exec(env, sets, here, IcmpExprs(t), st, reg);
      if env.pkt.icmpType == t then f.Go? && f.st == st else f == Break(st)
    {
      ExecTwo(env, sets, here, Payload(1, TransportHeader, 0, 1), Cmp(true, [t]), st, reg);
    }
  }

  /** ct state tests are single-bit masks. */
  lemma TestsCt(env: Env, sets: map<SetKey, SetBody>, bits: Byte)
    requires env.pkt.Valid()
    ensures Tests(env, sets, CtExprs(bits), And8(CtBit(env.pkt.ct), bits) != 0)
  {
    var ld := [CtBit(env.pkt.ct), 0, 0, 0];
    var m := [bits, 0, 0, 0];
    var r := AndBytes(ld, m);
    assert r == [And8(CtBit(env.pkt.ct), bits), 0, 0, 0];
    forall here, st, reg ensures
      var f := Exec(env, sets, here, CtExprs(bits), st, reg);
      if And8(CtBit(env.pkt.ct), bits) != 0 then f.Go? && f.st == st else f == Break(st)
    {
      ExecThree(env, sets, here, Ct, Bitwise(m, Zeros(4)), Cmp(false, Zeros(4)), st, reg);
      ExecTwo(env, sets, here, Bitwise(m, Zeros(4)), Cmp(false, Zeros(4)), st, ld);
      assert Zeros(4)[0] == 0;
      if And8(CtBit(env.pkt.ct), bits) == 0 {
        assert r == Zeros(4);
      }
    }
  }

  lemma CtBits(c: CtState)
    ensures And8(CtBit(c), CT_NEW) != 0 <==> c == CtNew
    ensures And8(CtBit(c), CT_EST_REL) != 0 <==> c == CtEstablished || c == CtRelated
    ensures And8(CtBit(c), CT_INVALID) != 0 <==> c == CtInvalid
  {
    AndPairs();
    match c {
      case CtInvalid =>
      case CtEstablished =>
      case CtRelated =>
      case CtNew =>
      case CtUntracked =>
    }
  }

  lemma AndPairs()
    ensures And8(1, 8) == And8(2, 8) == And8(4, 8) == And8(64, 8) == 0 && And8(8, 8) == 8
    ensures And8(1, 6) == And8(8, 6) == And8(64, 6) == 0 && And8(2, 6) == 2 && And8(4, 6) == 4
    ensures And8(2, 1) == And8(4, 1) == And8(8, 1) == And8(64, 1) == 0 && And8(1, 1) == 1
  {
  }

  // ---- interfaces -----------------------------------------------------------------------

  lemma PadInjective(a: Name, b: Name)
    requires |a| <= 16 && |b| <= 16
    requires (forall i :: 0 <= i < |a| ==> a[i] != 0) && (forall i :: 0 <= i < |b| ==> b[i] != 0)
    ensures Pad16(a) == Pad16(b) <==> a == b
  {
    assert |a| < |b| ==> Pad16(a)[|a|] == 0 && Pad16(b)[|a|] == b[|a|];
    assert |b| < |a| ==> Pad16(b)[|b|] == 0 && Pad16(a)[|b|] == a[|b|];
    if Pad16(a) == Pad16(b) {
      forall i | 0 <= i < |a| ensures a[i] == b[i] {
        assert Pad16(a)[i] == a[i] && Pad16(b)[i] == b[i];
      }
    }
  }

  /** Masking the padded name keeps the compared prefix. */
  lemma PrefixMasked(prefix: Name, name: Name)
    requires |prefix| <= 16 && |name| <= 15
    requires forall i :: 0 <= i < |prefix| ==> prefix[i] != 0
    ensures AndBytes(Pad16(name), PrefixMask(|prefix|)) == Pad16(prefix) <==> prefix <= name
  {
    var m := AndBytes(Pad16(name), PrefixMask(|prefix|));
    forall i | 0 <= i < 16 ensures m[i] == if i < |prefix| then Pad16(name)[i] else 0 {
      AndMaskByte(Pad16(name)[i], 0, 8);
    }
    assert |name| < |prefix| ==> m[|name|] == 0 && Pad16(prefix)[|name|] == prefix[|name|];
    if m == Pad16(prefix) {
      forall i | 0 <= i < |prefix| ensures name[i] == prefix[i] {
        assert m[i] == Pad16(prefix)[i];
      }
    }
    if prefix <= name {
      assert m == Pad16(prefix);
    }
  }

  lemma TestsIface(env: Env, sets: map<SetKey, SetBody>, input: bool, pat: Name)
    requires env.pkt.Valid() && CleanPattern(pat)
    ensures Tests(env, sets, IfaceExprs(input, pat), NameMatches(pat, if input then env.pkt.iif else env.pkt.oif))
  {
    var name := if input then env.pkt.iif else env.pkt.oif;
    var load := Meta(if input then IifName else OifName);
    PadInjective(pat, name);
    if Wildcard(pat) {
      var prefix := pat[..|pat| - 1];
      PrefixMasked(prefix, name);
      forall here, st, reg ensures
        var f := Exec(env, sets, here, IfaceExprs(input, pat), st, reg);
        if NameMatches(pat, name) then f.Go? && f.st == st else f == Break(st)
      {
        var bw, cmp := Bitwise(PrefixMask(|prefix|), Zeros(16)), Cmp(true, Pad16(prefix));
        ExecThree(env, sets, here, load, bw, cmp, st, reg);
        ExecTwo(env, sets, here, bw, cmp, st, Pad16(name));
      }
    } else {
      forall here, st, reg ensures
        var f := Exec(env, sets, here, IfaceExprs(input, pat), st, reg);
        if NameMatches(pat, name) then f.Go? && f.st == st else f == Break(st)
      {
        ExecTwo(env, sets, here, load, Cmp(true, Pad16(pat)), st, reg);
      }
    }
  }

  // ---- sets ---------------------------------------------------------------------------------

  /** A start and its end marker in front of an interval set add exactly their range. */
  lemma PairInFront(s: Elem, e: Elem, rest: seq<Elem>, key: seq<Byte>)
    requires e.intervalEnd
    ensures SetHas(SetBody([s, e] + rest, true), key) <==> PairHas(s, e, key) || SetHas(SetBody(rest, true), key)
  {
    var all := [s, e] + rest;
    if PairHas(s, e, key) {
      assert PairHas(all[0], all[1], key);
    }
    if SetHas(SetBody(rest, true), key) {
      var i :| 0 < i < |rest| && PairHas(rest[i - 1], rest[i], key);
      assert PairHas(all[i + 2 - 1], all[i + 2], key);
    }
    if SetHas(SetBody(all, true), key) {
      var i :| 0 < i < |all| && PairHas(all[i - 1], all[i], key);
      if i > 2 {
        assert PairHas(rest[i - 2 - 1], rest[i - 2], key);
      }
    }
  }

  lemma PortVal(p: nat)
    requires p < 65536
    ensures Val(Port(p)) == p
  {
    assert Port(p)[..1] == [p / 256] && [p / 256][..0] == [];
    assert Val([p / 256]) == Val([]) * 256 + p / 256;
  }

  /** The ranges of a selected list that contain a port. */
  predicate SomeContains(ports: seq<PortRange>, port: nat) {
    exists i :: 0 <= i < |ports| && ports[i].lo <= port <= ports[i].hi
  }

  lemma ContainsStep(ports: seq<PortRange>, port: nat)
    requires ports != []
    ensures SomeContains(ports, port) <==> ports[0].lo <= port <= ports[0].hi || SomeContains(ports[1..], port)
  {
    if SomeContains(ports[1..], port) {
      var i :| 0 <= i < |ports[1..]| && ports[1..][i].lo <= port <= ports[1..][i].hi;
      assert ports[i + 1].lo <= port <= ports[i + 1].hi;
    }
    if SomeContains(ports, port) {
      var i :| 0 <= i < |ports| && ports[i].lo <= port <= ports[i].hi;
      if i > 0 {
        assert ports[1..][i - 1].lo <= port <= ports[1..][i - 1].hi;
      }
    }
  }

  lemma {:induction false} IntervalElemsExact(ports: seq<PortRange>, port: nat)
    requires ValidPorts(ports) && port < 65536
    ensures SetHas(SetBody(PortElems(ports, true), true), Port(port)) <==> SomeContains(ports, port)
  {
    if ports != [] {
      var q := ports[0];
      var s, e := Elem(Port(q.lo), false), Elem(if q.hi == 65535 then Port(0) else Port(q.hi + 1), true);
      assert PortElems(ports, true) == [s, e] + PortElems(ports[1..], true);
      PairInFront(s, e, PortElems(ports[1..], true), Port(port));
      PortVal(q.lo);
      PortVal(port);
      PortVal(if q.hi == 65535 then 0 else q.hi + 1);
      IntervalElemsExact(ports[1..], port);
      ContainsStep(ports, port);
    }
  }

  lemma {:induction false} PlainElemsExact(ports: seq<PortRange>, port: nat)
    requires ValidPorts(ports) && port < 65536 && !AnyMulti(ports)
    ensures SetHas(SetBody(PortElems(ports, false), false), Port(port)) <==> SomeContains(ports, port)
  {
    if ports != [] {
      var q, rest := ports[0], PortElems(ports[1..], false);
      var all := PortElems(ports, false);
      assert all == [Elem(Port(q.lo), false)] + rest;
      assert q.lo == q.hi;
      forall i | 0 <= i < |ports[1..]| ensures ports[1..][i].lo == ports[1..][i].hi {
        assert ports[1..][i] == ports[i + 1];
      }
      PlainElemsExact(ports[1..], port);
      ContainsStep(ports, port);
      PortVal(q.lo);
      PortVal(port);
      PlainInFront(Elem(Port(q.lo), false), rest, Port(port));
    }
  }

  lemma PlainInFront(e: Elem, rest: seq<Elem>, key: seq<Byte>)
    ensures SetHas(SetBody([e] + rest, false), key) <==> e.key == key || SetHas(SetBody(rest, false), key)
  {
    var all := [e] + rest;
    if e.key == key {
      assert all[0].key == key;
    }
    if SetHas(SetBody(rest, false), key) {
      var i :| 0 <= i < |rest| && rest[i].key == key;
      assert all[i + 1].key == key;
    }
  }

  lemma PortSetExact(ports: seq<PortRange>, port: nat)
    requires ValidPorts(ports) && port < 65536
    ensures SetHas(PortSet(ports), Port(port)) <==> SomeContains(ports, port)
  {
    if AnyMulti(ports) {
      IntervalElemsExact(ports, port);
    } else {
      PlainElemsExact(ports, port);
    }
  }

  // ---- ports -----------------------------------------------------------------------------------

  lemma SelectsStep(ports: seq<PortRange>, tcp: bool, port: nat)
    requires ports != []
    ensures SomeSelects(ports, tcp) <==> Selects(ports[0], tcp) || SomeSelects(ports[1..], tcp)
    ensures SomeAdmits(ports, tcp, port)
      <==> (Selects(ports[0], tcp) && ports[0].lo <= port <= ports[0].hi) || SomeAdmits(ports[1..], tcp, port)
  {
    assert forall i :: 0 < i < |ports| ==> ports[i] == ports[1..][i - 1];
    assert forall i :: 0 <= i < |ports[1..]| ==> ports[1..][i] == ports[i + 1];
  }

  lemma {:induction false} SelectedExact(ports: seq<PortRange>, tcp: bool, port: nat)
    ensures Selected(ports, tcp) != [] <==> SomeSelects(ports, tcp)
    ensures SomeContains(Selected(ports, tcp), port) <==> SomeAdmits(ports, tcp, port)
  {
    if ports != [] {
      var sel := Selected(ports, tcp);
      SelectsStep(ports, tcp, port);
      SelectedExact(ports[1..], tcp, port);
      if Selects(ports[0], tcp) {
        assert sel[0] == ports[0] && sel[1..] == Selected(ports[1..], tcp);
        ContainsStep(sel, port);
      } else {
        assert sel == Selected(ports[1..], tcp);
      }
    }
  }

  lemma {:induction false} SelectedValid(ports: seq<PortRange>, tcp: bool)
    requires ValidPorts(ports)
    ensures ValidPorts(Selected(ports, tcp))
  {
    if ports != [] {
      SelectedValid(ports[1..], tcp);
    }
  }

  /** What the port expressions need from the set table: the anonymous set they name. */
  predicate PortSetPresent(sets: map<SetKey, SetBody>, ports: seq<PortRange>, tcp: bool, a: Alloc) {
    var sel := Selected(ports, tcp);
    |sel| > 1 ==> AnonSet(a.next + 1) in sets && sets[AnonSet(a.next + 1)] == PortSet(sel)
  }

  lemma TestsPorts(env: Env, sets: map<SetKey, SetBody>, ports: seq<PortRange>, tcp: bool, dst: bool, a: Alloc)
    requires env.pkt.Valid() && IsPorted(env.pkt.l4) && ValidPorts(ports)
    requires PortSetPresent(sets, ports, tcp, a)
    ensures Tests(env, sets, PortExprs(ports, tcp, dst, a),
                  PortsAdmit(ports, tcp, if dst then env.pkt.dport else env.pkt.sport))
  {
    var port := if dst then env.pkt.dport else env.pkt.sport;
    var sel := Selected(ports, tcp);
    SelectedExact(ports, tcp, port);
    SelectedValid(ports, tcp);
    if |sel| > 0 {
      var load := Payload(1, TransportHeader, if dst then 2 else 0, 2);
      var cmp := PortExprs(ports, tcp, dst, a)[1];
      PortCompare(env, sets, sel, cmp, port, a);
      forall here, st, reg ensures
        var f := Exec(env, sets, here, PortExprs(ports, tcp, dst, a), st, reg);
        if PortsAdmit(ports, tcp, port) then f.Go? && f.st == st else f == Break(st)
      {
        ExecTwo(env, sets, here, load, cmp, st, reg);
        assert ExecOne(env, sets, here, cmp, st, Port(port)) == Test(SomeContains(sel, port), st, Port(port));
      }
    }
  }

  /** The comparison chosen for one range, one port or several ranges tests membership. */
  lemma PortCompare(env: Env, sets: map<SetKey, SetBody>, sel: seq<PortRange>, cmp: Expr, port: nat, a: Alloc)
    requires env.pkt.Valid() && ValidPorts(sel) && sel != [] && port < 65536
    requires |sel| == 1 ==> cmp == if sel[0].lo == sel[0].hi then Cmp(true, Port(sel[0].lo)) else Range(Port(sel[0].lo), Port(sel[0].hi))
    requires |sel| > 1 ==>
      && cmp == Lookup(AnonSet(a.next + 1))
      && AnonSet(a.next + 1) in sets && sets[AnonSet(a.next + 1)] == PortSet(sel)
    ensures forall here, st :: ExecOne(env, sets, here, cmp, st, Port(port)) == Test(SomeContains(sel, port), st, Port(port))
  {
    PortVal(port);
    if |sel| == 1 {
      PortVal(sel[0].lo);
      PortVal(sel[0].hi);
      ContainsStep(sel, port);
    } else {
      PortSetExact(sel, port);
    }
  }

  // ---- addresses ----------------------------------------------------------------------------------

  /** Named-set membership as the compiled lookup sees it. */
  function CompiledSets(sets: map<SetKey, SetBody>): SetFn {
    (name: string, addr: seq<Byte>) =>
      var key := NamedSet(SetText(name, |addr| == 16));
      key in sets && SetHas(sets[key], addr)
  }

  lemma LoadAddr(env: Env, sets: map<SetKey, SetBody>, dst: bool)
    requires env.pkt.Valid()
    ensures forall here, st, reg ::
      ExecOne(env, sets, here, AddrLoad(dst, env.pkt.v6), st, reg) == Go(st, if dst then env.pkt.dst else env.pkt.src)
  {
  }

  lemma TestsIp(env: Env, sets: map<SetKey, SetBody>, ip: Ip, dst: bool)
    requires env.pkt.Valid() && ip.Valid()
    ensures Tests(env, sets, IpExprs(ip, dst, env.pkt.v6),
                  AddrMatches(AddrSpec(ip, [], ""), CompiledSets(sets), if dst then env.pkt.dst else env.pkt.src))
  {
    var v6 := env.pkt.v6;
    var n := if v6 then 16 else 4;
    match ip {
      case AnyIp =>
      case BadIp(_) => TestsFailClosed(env, sets);
      case Net(bytes, ones) =>
        if |bytes| != n {
          TestsFailClosed(env, sets);
        } else {
          TestsNet(env, sets, bytes, ones, dst);
        }
    }
  }

  lemma TestsFailClosed(env: Env, sets: map<SetKey, SetBody>)
    requires env.pkt.Valid()
    ensures Tests(env, sets, FAIL_CLOSED, false)
  {
    forall here, st, reg ensures Exec(env, sets, here, FAIL_CLOSED, st, reg) == Break(st) {
      ExecTwo(env, sets, here, Cmp(true, [0]), Cmp(true, [1]), st, reg);
      assert [0] != [1] by {
        assert [0][0] != [1][0];
      }
    }
  }

  lemma TestsNet(env: Env, sets: map<SetKey, SetBody>, bytes: seq<Byte>, ones: nat, dst: bool)
    requires env.pkt.Valid() && |bytes| == (if env.pkt.v6 then 16 else 4)
    requires ones <= 8 * |bytes| && Canonical(bytes, ones)
    ensures Tests(env, sets, IpExprs(Net(bytes, ones), dst, env.pkt.v6),
                  InPrefix(bytes, ones, if dst then env.pkt.dst else env.pkt.src))
  {
    var v6, n := env.pkt.v6, |bytes|;
    var addr := if dst then env.pkt.dst else env.pkt.src;
    var load := AddrLoad(dst, v6);
    LoadAddr(env, sets, dst);
    MaskCompareExact(bytes, ones, addr);
    ValInjective(bytes, addr);
    forall here, st, reg ensures
      var f := Exec(env, sets, here, IpExprs(Net(bytes, ones), dst, v6), st, reg);
      if InPrefix(bytes, ones, addr) then f.Go? && f.st == st else f == Break(st)
    {
      if ones == 8 * n {
        ExecTwo(env, sets, here, load, Cmp(true, bytes), st, reg);
      } else {
        var bw := Bitwise(Mask(n, ones), Zeros(n));
        ExecThree(env, sets, here, load, bw, Cmp(true, bytes), st, reg);
        ExecTwo(env, sets, here, bw, Cmp(true, bytes), st, addr);
      }
    }
  }

  lemma TestsEndpoint(env: Env, sets: map<SetKey, SetBody>, a: AddrSpec, dst: bool)
    requires env.pkt.Valid() && a.ip.Valid()
    ensures Tests(env, sets, EndpointExprs(a, dst, env.pkt.v6),
                  AddrMatches(a, CompiledSets(sets), if dst then env.pkt.dst else env.pkt.src))
  {
    if a.setName == "" {
      TestsIp(env, sets, a.ip, dst);
    } else {
      var addr := if dst then env.pkt.dst else env.pkt.src;
      var key := NamedSet(SetText(a.setName, env.pkt.v6));
      LoadAddr(env, sets, dst);
      forall here, st, reg ensures
        var f := Exec(env, sets, here, EndpointExprs(a, dst, env.pkt.v6), st, reg);
        if CompiledSets(sets)(a.setName, addr) then f.Go? && f.st == st else f == Break(st)
      {
        ExecTwo(env, sets, here, AddrLoad(dst, env.pkt.v6), Lookup(key), st, reg);
      }
    }
  }

  // ---- the whole match ---------------------------------------------------------------------------

  /** What one variant of a rule means. */
  predicate VariantMatches(r: Rule, proto: Proto, v6: bool, sets: SetFn, p: Packet)
    requires r.ValidAddrs()
  {
    && p.v6 == v6
    && IfaceMatches(r.ifaceIn, p.iif) && IfaceMatches(r.ifaceOut, p.oif)
    && (proto != AnyProto ==> ProtoNumber(proto) == Some(p.l4))
    && IcmpMatches(r, p)
    && AddrMatches(r.src, sets, p.src) && AddrMatches(r.dst, sets, p.dst)
    && (TakesPorts(proto) ==>
        PortsAdmit(r.src.ports, proto == Tcp, p.sport) && PortsAdmit(r.dst.ports, proto == Tcp, p.dport))
  }

  ghost predicate PortSetsPresent(sets: map<SetKey, SetBody>, r: Rule, proto: Proto, a: Alloc) {
    TakesPorts(proto) ==>
      && PortSetPresent(sets, r.src.ports, proto == Tcp, a)
      && PortSetPresent(sets, r.dst.ports, proto == Tcp, PortAlloc(r.src.ports, proto == Tcp, a))
  }

  lemma TestsIfacePair(env: Env, sets: map<SetKey, SetBody>, r: Rule)
    requires env.pkt.Valid() && Encodable(r)
    ensures Tests(env, sets, IfacePairExprs(r), IfaceMatches(r.ifaceIn, env.pkt.iif) && IfaceMatches(r.ifaceOut, env.pkt.oif))
  {
    var ea := if r.ifaceIn != [] then IfaceExprs(true, Truncate16(r.ifaceIn)) else [];
    var eb := if r.ifaceOut != [] then IfaceExprs(false, Truncate16(r.ifaceOut)) else [];
    if r.ifaceIn != [] { TestsIface(env, sets, true, r.ifaceIn); } else { TestsNone(env, sets); }
    if r.ifaceOut != [] { TestsIface(env, sets, false, r.ifaceOut); } else { TestsNone(env, sets); }
    TestsConcat(env, sets, ea, eb, IfaceMatches(r.ifaceIn, env.pkt.iif), IfaceMatches(r.ifaceOut, env.pkt.oif));
  }

  lemma TestsProto(env: Env, sets: map<SetKey, SetBody>, r: Rule, proto: Proto, v6: bool)
    requires env.pkt.Valid() && !MatchFails(r, proto, v6)
    ensures Tests(env, sets, ProtoExprs(r, proto),
                  (proto != AnyProto ==> ProtoNumber(proto) == Some(env.pkt.l4)) && IcmpMatches(r, env.pkt))
  {
    var ea := match ProtoNumber(proto) case Some(num) => L4Exprs(num) case None => [];
    var eb := if r.icmpType.Some? then IcmpExprs(r.icmpType.value) else [];
    var ca := proto != AnyProto ==> ProtoNumber(proto) == Some(env.pkt.l4);
    if ProtoNumber(proto).Some? { TestsL4(env, sets, ProtoNumber(proto).value); } else { TestsNone(env, sets); }
    if ca {
      if r.icmpType.Some? { TestsIcmp(env, sets, r.icmpType.value); } else { TestsNone(env, sets); }
    }
    TestsConcat(env, sets, ea, eb, ca, IcmpMatches(r, env.pkt));
  }

  lemma TestsPortPair(env: Env, sets: map<SetKey, SetBody>, r: Rule, proto: Proto, a: Alloc)
    requires env.pkt.Valid() && Encodable(r) && PortSetsPresent(sets, r, proto, a)
    requires proto != AnyProto ==> ProtoNumber(proto) == Some(env.pkt.l4)
    ensures Tests(env, sets, PortPairExprs(r, proto, a), TakesPorts(proto) ==>
      PortsAdmit(r.src.ports, proto == Tcp, env.pkt.sport) && PortsAdmit(r.dst.ports, proto == Tcp, env.pkt.dport))
  {
    if TakesPorts(proto) {
      var tcp := proto == Tcp;
      TestsPorts(env, sets, r.src.ports, tcp, false, a);
      TestsPorts(env, sets, r.dst.ports, tcp, true, PortAlloc(r.src.ports, tcp, a));
      TestsConcat(env, sets, PortExprs(r.src.ports, tcp, false, a),
                  PortExprs(r.dst.ports, tcp, true, PortAlloc(r.src.ports, tcp, a)),
                  PortsAdmit(r.src.ports, tcp, env.pkt.sport), PortsAdmit(r.dst.ports, tcp, env.pkt.dport));
    } else {
      TestsNone(env, sets);
    }
  }

  /** The emitted match of a variant is a pure test of what the variant means. */
  lemma TestsMatch(env: Env, sets: map<SetKey, SetBody>, r: Rule, proto: Proto, v6: bool, a: Alloc)
    requires env.pkt.Valid() && Encodable(r) && r.ValidAddrs()
    requires !MatchFails(r, proto, v6) && PortSetsPresent(sets, r, proto, a)
    ensures Tests(env, sets, MatchExprs(r, proto, v6, a), VariantMatches(r, proto, v6, CompiledSets(sets), env.pkt))
  {
    var p, fn := env.pkt, CompiledSets(sets);
    var c1 := p.v6 == v6;
    var c2 := c1 && IfaceMatches(r.ifaceIn, p.iif) && IfaceMatches(r.ifaceOut, p.oif);
    var cp := (proto != AnyProto ==> ProtoNumber(proto) == Some(p.l4)) && IcmpMatches(r, p);
    var c3 := c2 && cp;
    var c4 := c3 && AddrMatches(r.src, fn, p.src);
    var c5 := c4 && AddrMatches(r.dst, fn, p.dst);
    var e1 := FamilyExprs(v6);
    var e2 := e1 + IfacePairExprs(r);
    var e3 := e2 + ProtoExprs(r, proto);
    var e4 := e3 + EndpointExprs(r.src, false, v6);
    var e5 := e4 + EndpointExprs(r.dst, true, v6);
    TestsFamily(env, sets, v6);
    TestsIfacePair(env, sets, r);
    TestsConcat(env, sets, e1, IfacePairExprs(r), c1, IfaceMatches(r.ifaceIn, p.iif) && IfaceMatches(r.ifaceOut, p.oif));
    TestsProto(env, sets, r, proto, v6);
    TestsConcat(env, sets, e2, ProtoExprs(r, proto), c2, cp);
    if c1 {
      TestsEndpoint(env, sets, r.src, false);
      TestsEndpoint(env, sets, r.dst, true);
    }
    TestsConcat(env, sets, e3, EndpointExprs(r.src, false, v6), c3, AddrMatches(r.src, fn, p.src));
    TestsConcat(env, sets, e4, EndpointExprs(r.dst, true, v6), c4, AddrMatches(r.dst, fn, p.dst));
    if c5 {
      TestsPortPair(env, sets, r, proto, a);
    }
    TestsConcat(env, sets, e5, PortPairExprs(r, proto, a), c5, TakesPorts(proto) ==>
      PortsAdmit(r.src.ports, proto == Tcp, p.sport) && PortsAdmit(r.dst.ports, proto == Tcp, p.dport));
  }

  // ---- from variants back to rules ----------------------------------------------------------------

  /** A rule means the union of its variants, and a packet fits at most one of them. */
  lemma VariantsExact(r: Rule, v6: bool, sets: SetFn, p: Packet)
    requires r.ValidAddrs() && r.proto != UnknownProto
    ensures var v := Variants(r);
      && (Matches(r, v6, sets, p) <==> VariantMatches(r, v[0], v6, sets, p) || (|v| == 2 && VariantMatches(r, v[1], v6, sets, p)))
      && (|v| == 2 ==> !(VariantMatches(r, v[0], v6, sets, p) && VariantMatches(r, v[1], v6, sets, p)))
  {
    if r.proto == AnyProto && !Wants(r, true) && !Wants(r, false) {
      RangeSelects(r.src.ports);
      RangeSelects(r.dst.ports);
    }
  }

  lemma RangeSelects(ports: seq<PortRange>)
    ensures ports != [] ==> SomeSelects(ports, true) || SomeSelects(ports, false)
  {
    assert ports != [] ==> Selects(ports[0], true) || Selects(ports[0], false);
  }
}
