/** The object graph under construction: expression windows carved from shared arrays, and
    rule objects kept in chunks that never move. */
module Arena {
  import opened Bytes
  import opened Rules
  import opened Store
  import opened Nft
  import opened Compile
  import opened CompileMatch
  import opened CompileUser
  import opened Memory
  import opened Emission
  import opened CompileSets
  import opened Cidr
  import opened Intervals

  /** s may have moved to a new array or used up part of its room. */
  predicate GrownFrom(g: Graph, s: Slice, t: Slice) {
    && t.len <= t.cap
    && (t.block >= |g.mem| || t.cap == 0
        || (t.block == s.block && t.off == s.off && t.cap == s.cap && t.len >= s.len))
  }

  lemma KeepsTwice(g1: Graph, g2: Graph, g3: Graph, s: Slice, t: Slice)
    requires KeepsApart(g1, g2, s) && KeepsApart(g2, g3, t) && GrownFrom(g1, s, t)
    ensures KeepsApart(g1, g3, s)
  {
    forall u | InMem(g1.mem, u) && Apart(u, s) ensures InMem(g3.mem, u) && Read(g3.mem, u) == Read(g1.mem, u) {
      assert InMem(g2.mem, u) && Apart(u, t);
    }
  }

  lemma StaysRead(g1: Graph, g2: Graph, s: Slice, m: Slice)
    requires KeepsApart(g1, g2, s) && InMem(g1.mem, m) && Apart(m, s)
    ensures InMem(g2.mem, m) && Read(g2.mem, m) == Read(g1.mem, m)
  {
  }

  /** A slice grown from nothing shares no cell with one that was there before. */
  lemma FreshApart(g: Graph, c: Slice, m: Slice)
    requires GrownFrom(g, NIL, c) && InMem(g.mem, m)
    ensures Apart(m, c) && Apart(m, NIL)
  {
  }

  lemma Joined(a: seq<Expr>, b: seq<Expr>, c: seq<Expr>)
    ensures a + b + c == a + (b + c)
  {
  }

  class Compiled {
    var mem: Heap
    var exprArenas: seq<ExprArena>
    var ruleArenas: seq<Chunk>
    var rules: seq<Handle>
    var ruleCap: nat
    var alloc: Alloc
    ghost var windows: seq<Slice>

    constructor (ruleCap: nat)
      ensures Valid(G()) && Stored(G()) == [] && alloc == NO_SETS
    {
      mem, exprArenas, ruleArenas, rules := [], [], [], [];
      this.ruleCap := ruleCap;
      alloc := NO_SETS;
      windows := [];
    }

    ghost function G(): Graph
      reads this
    {
      Graph(mem, exprArenas, ruleArenas, rules, windows)
    }

    /** Starts a new array when the current one cannot hold the window. */
    method EnsureRoom(capHint: nat, chunkCap: nat)
      requires Valid(G())
      modifies this`mem, this`exprArenas
      ensures Valid(G()) && Stored(G()) == old(Stored(G())) && Extends(old(G()), G())
      ensures HasRoom(G(), capHint)
    {
      if exprArenas == [] || |mem[exprArenas[|exprArenas| - 1].block]| - exprArenas[|exprArenas| - 1].used < capHint {
        var arenaCap := if capHint > chunkCap then capHint else chunkCap;
        ArenaExtends(G(), arenaCap);
        mem := mem + [seq(arenaCap, i => Counter)];
        exprArenas := exprArenas + [ExprArena(|mem| - 1, 0)];
        assert G() == WithArena(old(G()), arenaCap);
      }
    }

    /** Hands out a window of exactly capHint cells; none for a hint of zero or less. */
    method ExprSliceWithChunk(capHint: int, chunkCap: nat) returns (s: Slice)
      requires Valid(G())
      modifies this`mem, this`exprArenas, this`windows
      ensures Valid(G()) && Stored(G()) == old(Stored(G())) && Owned(G(), s)
      ensures s.len == 0 && s.cap == (if capHint > 0 then capHint else 0)
      ensures windows == old(windows) + (if capHint > 0 then [s] else [])
      ensures Extends(old(G()), G())
    {
      if capHint <= 0 {
        return NIL;
      }
      EnsureRoom(capHint, chunkCap);
      ghost var mid := G();
      WindowFresh(mid, capHint);
      var last := |exprArenas| - 1;
      var arena := exprArenas[last];
      exprArenas := exprArenas[last := arena.(used := arena.used + capHint)];
      s := Slice(arena.block, arena.used, 0, capHint);
      windows := windows + [s];
      assert (G(), s) == WithWindow(mid, capHint);
    }

    /** The runtime's append; how much spare room a new array gets is its own choice. */
    method Append(s: Slice, xs: seq<Expr>) returns (t: Slice)
      requires Valid(G()) && Owned(G(), s)
      modifies this`mem
      ensures Valid(G()) && Stored(G()) == old(Stored(G())) && Owned(G(), t)
      ensures Read(mem, t) == Read(old(mem), s) + xs
      ensures KeepsApart(old(G()), G(), s) && GrownFrom(old(G()), s, t)
    {
      var spare: nat := *;
      AppendOwned(G(), s, xs, spare);
      if xs == [] {
        t := s;
      } else if s.len + |xs| <= s.cap {
        mem := mem[s.block := Splice(mem[s.block], s.off + s.len, xs)];
        t := s.(len := s.len + |xs|);
      } else {
        t := Slice(|mem|, 0, s.len + |xs|, s.len + |xs| + spare);
        mem := mem + [Read(mem, s) + xs + seq(spare, i => Counter)];
      }
      assert G() == WithAppend(old(G()), s, xs, spare);
    }

    method AppendTwo(s: Slice, xs: seq<Expr>, ys: seq<Expr>) returns (t: Slice)
      requires Valid(G()) && Owned(G(), s)
      modifies this`mem
      ensures Valid(G()) && Stored(G()) == old(Stored(G())) && Owned(G(), t)
      ensures Read(mem, t) == Read(old(mem), s) + (xs + ys)
      ensures KeepsApart(old(G()), G(), s)
    {
      var u := Append(s, xs);
      ghost var mid := G();
      t := Append(u, ys);
      KeepsTwice(old(G()), mid, G(), s, u);
      Joined(old(Read(mem, s)), xs, ys);
    }

    /** A full chunk is never grown: the next object starts a new one. */
    method EnsureChunk()
      requires Valid(G())
      modifies this`ruleArenas
      ensures Valid(G()) && Stored(G()) == old(Stored(G())) && ChunkHasRoom(G())
    {
      if ruleArenas == [] || |ruleArenas[|ruleArenas| - 1].objs| == ruleArenas[|ruleArenas| - 1].cap {
        var capHint := if ruleCap == 0 || ruleArenas != [] then 256 else ruleCap;
        ChunkKeeps(G(), capHint);
        ruleArenas := ruleArenas + [Chunk([], capHint)];
        assert G() == WithChunk(old(G()), capHint);
      }
    }

    /** Stores a rule object. It reads back as passed, and so do all earlier ones. */
    method AddRuleObject(chain: Chain, s: Slice)
      requires Valid(G()) && InMem(mem, s) && Taken(G(), s)
      modifies this`ruleArenas, this`rules
      ensures Valid(G()) && Stored(G()) == old(Stored(G())) + [(chain, Read(mem, s))]
      ensures old(rules) <= rules
    {
      EnsureChunk();
      ghost var mid := G();
      RuleAdded(mid, RuleObj(chain, s));
      var last := |ruleArenas| - 1;
      var chunk := ruleArenas[last];
      ruleArenas := ruleArenas[last := chunk.(objs := chunk.objs + [RuleObj(chain, s)])];
      rules := rules + [Handle(last, |chunk.objs|)];
      assert G() == WithRule(mid, RuleObj(chain, s));
    }

    /** The caller may still read m, whether or not it may append to it. */
    ghost predicate Readable(m: Slice)
      reads this
    {
      InMem(mem, m) && Taken(G(), m)
    }

    /** Stores m followed by xs and ys, using m's own room. */
    method AddInPlace(chain: Chain, m: Slice, xs: seq<Expr>, ys: seq<Expr>)
      requires Valid(G()) && Owned(G(), m)
      modifies this`mem, this`ruleArenas, this`rules
      ensures Valid(G()) && Stored(G()) == old(Stored(G())) + [(chain, old(Read(mem, m)) + (xs + ys))]
      ensures Readable(m) && Read(mem, m) == old(Read(mem, m))
    {
      var t := AppendTwo(m, xs, ys);
      AddRuleObject(chain, t);
    }

    /** A copy of m that shares no cell with it. */
    method CopyOf(m: Slice) returns (c: Slice)
      requires Valid(G()) && Readable(m)
      modifies this`mem
      ensures Valid(G()) && Stored(G()) == old(Stored(G())) && Owned(G(), c)
      ensures Read(mem, c) == old(Read(mem, m)) && Apart(m, c)
      ensures Readable(m) && Read(mem, m) == old(Read(mem, m))
    {
      c := Append(NIL, Read(mem, m));
      FreshApart(old(G()), c, m);
      StaysRead(old(G()), G(), NIL, m);
      assert [] + old(Read(mem, m)) == old(Read(mem, m));
    }

    /** Stores a copy of m followed by xs and ys. */
    method AddCopy(chain: Chain, m: Slice, xs: seq<Expr>, ys: seq<Expr>)
      requires Valid(G()) && Readable(m)
      modifies this`mem, this`ruleArenas, this`rules
      ensures Valid(G()) && Stored(G()) == old(Stored(G())) + [(chain, old(Read(mem, m)) + (xs + ys))]
      ensures Readable(m) && Read(mem, m) == old(Read(mem, m))
    {
      var c := CopyOf(m);
      ghost var mid := G();
      var t := AppendTwo(c, xs, ys);
      StaysRead(mid, G(), c, m);
      AddRuleObject(chain, t);
    }

    /** Stores a copy of m followed by xs, in a fresh window of the arena. */
    method AddFromWindow(chain: Chain, m: Slice, xs: seq<Expr>)
      requires Valid(G()) && Readable(m)
      modifies this`mem, this`exprArenas, this`ruleArenas, this`rules, this`windows
      ensures Valid(G()) && Stored(G()) == old(Stored(G())) + [(chain, old(Read(mem, m)) + xs)]
    {
      var w := ExprSliceWithChunk(m.len + 2, 4096);
      var t := AppendTwo(w, Read(mem, m), xs);
      assert [] + (old(Read(mem, m)) + xs) == old(Read(mem, m)) + xs;
      AddRuleObject(chain, t);
    }

    /** A fixed rule: its expressions are joined in a window of exactly their length. */
    method AddJoined(chain: Chain, es: seq<Expr>)
      requires Valid(G())
      modifies this`mem, this`exprArenas, this`ruleArenas, this`rules, this`windows
      ensures Valid(G()) && Stored(G()) == old(Stored(G())) + [(chain, es)]
    {
      var w := ExprSliceWithChunk(|es|, 128);
      assert Read(mem, w) + es == es;
      var t := Append(w, es);
      AddRuleObject(chain, t);
    }

    // ---- one rule variant ------------------------------------------------------------

    /** Adds the port match of one side, with an anonymous set when several ranges apply. */
    method AppendPortExprs(s: Slice, ports: seq<PortRange>, tcp: bool, dst: bool) returns (t: Slice)
      requires Valid(G()) && Owned(G(), s)
      modifies this`mem, this`alloc
      ensures Valid(G()) && Stored(G()) == old(Stored(G())) && Owned(G(), t)
      ensures Read(mem, t) == Read(old(mem), s) + PortExprs(ports, tcp, dst, old(alloc))
      ensures alloc == PortAlloc(ports, tcp, old(alloc))
    {
      var load := Payload(1, TransportHeader, if dst then 2 else 0, 2);
      var matched, first := CountSelected(ports, tcp);
      if matched == 0 {
        assert Read(mem, s) + [] == Read(mem, s);
        t := s;
      } else if matched == 1 {
        var cmp := if first.lo == first.hi then Cmp(true, Port(first.lo)) else Range(Port(first.lo), Port(first.hi));
        t := Append(s, [load, cmp]);
      } else {
        var id := AddPortSet(ports, tcp);
        t := Append(s, [load, Lookup(AnonSet(id))]);
      }
    }

    method AddPortSet(ports: seq<PortRange>, tcp: bool) returns (id: nat)
      requires |Selected(ports, tcp)| > 1
      modifies this`alloc
      ensures id == old(alloc).next + 1 && alloc == PortAlloc(ports, tcp, old(alloc))
    {
      var elems, interval := BuildPortElems(ports, tcp);
      id := alloc.next + 1;
      alloc := Created(alloc, AnonSet(id), 2, SetBody(elems, interval));
    }

    /** Room for a match: the estimate is only a hint. */
    function MatchCapHint(r: Rule, proto: Proto): nat {
      4 + (if r.ifaceIn != [] then 3 else 0) + (if r.ifaceOut != [] then 3 else 0)
      + (if proto != AnyProto then 2 else 0) + (if r.icmpType.Some? then 2 else 0)
      + (if r.src.ip != AnyIp then 3 else 0) + (if r.dst.ip != AnyIp then 3 else 0)
      + (if TakesPorts(proto) && r.src.ports != [] then 2 else 0)
      + (if TakesPorts(proto) && r.dst.ports != [] then 2 else 0)
      + (if r.action == Limit then 8 else 0)
      + (if r.log == LogNone then 0 else if r.log == LogNew then 8 else 5)
    }

    /** A fresh window holding the family test. */
    method MatchStart(r: Rule, proto: Proto, v6: bool) returns (t: Slice)
      requires Valid(G())
      modifies this`mem, this`exprArenas, this`windows
      ensures Valid(G()) && Stored(G()) == old(Stored(G())) && Owned(G(), t)
      ensures Read(mem, t) == FamilyExprs(v6)
    {
      var w := ExprSliceWithChunk(MatchCapHint(r, proto), 4096);
      t := Append(w, FamilyExprs(v6));
      assert [] + FamilyExprs(v6) == FamilyExprs(v6);
    }

    method AppendIfaces(s: Slice, r: Rule) returns (t: Slice)
      requires Valid(G()) && Owned(G(), s)
      modifies this`mem
      ensures Valid(G()) && Stored(G()) == old(Stored(G())) && Owned(G(), t)
      ensures Read(mem, t) == Read(old(mem), s) + IfacePairExprs(r)
    {
      var ins := if r.ifaceIn != [] then IfaceExprs(true, Truncate16(r.ifaceIn)) else [];
      var outs := if r.ifaceOut != [] then IfaceExprs(false, Truncate16(r.ifaceOut)) else [];
      t := AppendTwo(s, ins, outs);
    }

    /** Refuses unknown protocols and types without an ICMP protocol. */
    method AppendProto(s: Slice, r: Rule, proto: Proto) returns (ok: bool, t: Slice)
      requires Valid(G()) && Owned(G(), s)
      modifies this`mem
      ensures Valid(G())
      ensures ok <==> proto != UnknownProto && (r.icmpType.Some? ==> IsIcmp(proto))
      ensures ok ==> Stored(G()) == old(Stored(G())) && Owned(G(), t)
      ensures ok ==> Read(mem, t) == Read(old(mem), s) + ProtoExprs(r, proto)
    {
      if proto == UnknownProto || (r.icmpType.Some? && !IsIcmp(proto)) {
        return false, NIL;
      }
      var l4 := match ProtoNumber(proto) case Some(num) => L4Exprs(num) case None => [];
      var icmp := if r.icmpType.Some? then IcmpExprs(r.icmpType.value) else [];
      t := AppendTwo(s, l4, icmp);
      ok := true;
    }

    method AppendEndpoints(s: Slice, r: Rule, v6: bool) returns (t: Slice)
      requires Valid(G()) && Owned(G(), s)
      modifies this`mem
      ensures Valid(G()) && Stored(G()) == old(Stored(G())) && Owned(G(), t)
      ensures Read(mem, t) == Read(old(mem), s) + (EndpointExprs(r.src, false, v6) + EndpointExprs(r.dst, true, v6))
    {
      t := AppendTwo(s, EndpointExprs(r.src, false, v6), EndpointExprs(r.dst, true, v6));
    }

    method AppendPortPair(s: Slice, r: Rule, proto: Proto) returns (t: Slice)
      requires Valid(G()) && Owned(G(), s)
      modifies this`mem, this`alloc
      ensures Valid(G()) && Stored(G()) == old(Stored(G())) && Owned(G(), t)
      ensures Read(mem, t) == Read(old(mem), s) + PortPairExprs(r, proto, old(alloc))
      ensures alloc == MatchAlloc(r, proto, old(alloc))
    {
      if TakesPorts(proto) {
        var u := AppendPortExprs(s, r.src.ports, proto == Tcp, false);
        t := AppendPortExprs(u, r.dst.ports, proto == Tcp, true);
        Assoc3(old(Read(mem, s)), PortExprs(r.src.ports, proto == Tcp, false, old(alloc)),
               PortExprs(r.dst.ports, proto == Tcp, true, PortAlloc(r.src.ports, proto == Tcp, old(alloc))));
      } else {
        assert Read(mem, s) + [] == Read(mem, s);
        t := s;
      }
    }

    /** The part of a match that can be refused. */
    method MatchFront(r: Rule, proto: Proto, v6: bool) returns (ok: bool, t: Slice)
      requires Valid(G())
      modifies this`mem, this`exprArenas, this`windows
      ensures Valid(G()) && (ok <==> !MatchFails(r, proto, v6))
      ensures ok ==> Stored(G()) == old(Stored(G())) && Owned(G(), t)
      ensures ok ==> Read(mem, t) == FamilyExprs(v6) + IfacePairExprs(r) + ProtoExprs(r, proto)
    {
      if (proto == Icmp && v6) || (proto == Icmpv6 && !v6) || (IsIcmp(proto) && (r.src.ports != [] || r.dst.ports != [])) {
        return false, NIL;
      }
      t := MatchStart(r, proto, v6);
      t := AppendIfaces(t, r);
      ok, t := AppendProto(t, r, proto);
    }

    /** Builds the match of one variant in a fresh window. */
    method RuleMatch(r: Rule, proto: Proto, v6: bool) returns (ok: bool, m: Slice)
      requires Valid(G())
      modifies this`mem, this`exprArenas, this`windows, this`alloc
      ensures Valid(G()) && (ok <==> !MatchFails(r, proto, v6))
      ensures ok ==> Stored(G()) == old(Stored(G())) && Owned(G(), m)
      ensures ok ==> Read(mem, m) == MatchExprs(r, proto, v6, old(alloc))
      ensures ok ==> alloc == MatchAlloc(r, proto, old(alloc))
    {
      ok, m := MatchFront(r, proto, v6);
      if ok {
        m := AppendEndpoints(m, r, v6);
        m := AppendPortPair(m, r, proto);
        MatchShape(r, proto, v6, old(alloc));
      }
    }

    /** A logged rule first records and returns in its logging chain, then jumps there.
        The first entry takes over the room behind m; the others copy it. */
    method AddLogging(r: Rule, m: Slice)
      requires Valid(G()) && Owned(G(), m) && r.log != LogNone
      modifies this`mem, this`ruleArenas, this`rules
      ensures Valid(G()) && Stored(G()) == old(Stored(G())) + LogEmits(r, old(Read(mem, m)))
      ensures Readable(m) && Read(mem, m) == old(Read(mem, m))
    {
      ghost var was, e := Stored(G()), Read(mem, m);
      AddInPlace(UserLogging(r.dir), m, NewOnly(r), [LIMIT3, Log(LogPrefix(r.action))]);
      AddCopy(UserLogging(r.dir), m, NewOnly(r), [Counter, Return]);
      AddCopy(User(r.dir), m, [], [Counter, Jump(UserLogging(r.dir))]);
      ThreeAdded(was, r, e);
    }

    /** The terminal entry of a rule that is not a limit. Only an unlogged rule may use m's room. */
    method AddVerdict(r: Rule, m: Slice)
      requires Valid(G()) && Readable(m) && (r.log == LogNone ==> Owned(G(), m))
      modifies this`mem, this`ruleArenas, this`rules
      ensures Valid(G()) && Stored(G()) == old(Stored(G())) + [(User(r.dir), old(Read(mem, m)) + VerdictExprs(r.action))]
    {
      assert [] + VerdictExprs(r.action) == VerdictExprs(r.action);
      if r.log != LogNone {
        AddCopy(User(r.dir), m, [], VerdictExprs(r.action));
      } else {
        AddInPlace(User(r.dir), m, [], VerdictExprs(r.action));
      }
    }

    /** Creates the meter set unless an earlier variant of the rule did. */
    method EnsureLimitSet(r: Rule, v6: bool)
      requires r.action == Limit
      modifies this`alloc
      ensures alloc == LimitAlloc(r, v6, old(alloc))
    {
      var key := LimitSet(LimitText(r, v6));
      if key !in alloc.sets {
        alloc := Created(alloc, key, LimitKeyLen(v6), SetBody([], false));
      }
    }

    /** The over-limit branch takes m's own room; the other is rebuilt from m in a new window. */
    method CompileLimit(r: Rule, proto: Proto, v6: bool, m: Slice)
      requires Valid(G()) && Owned(G(), m) && r.action == Limit
      modifies this`mem, this`exprArenas, this`ruleArenas, this`rules, this`windows, this`alloc
      ensures Valid(G()) && Stored(G()) == old(Stored(G())) + ActionEmits(r, proto, v6, old(Read(mem, m)))
      ensures alloc == LimitAlloc(r, v6, old(alloc))
    {
      ghost var was, e := Stored(G()), Read(mem, m);
      EnsureLimitSet(r, v6);
      AddInPlace(User(r.dir), m, MeterExprs(r, proto, v6), MeterTail(r, v6));
      AddFromWindow(User(r.dir), m, [Counter, Jump(UserLimitAccept)]);
      TwoAdded(was, (User(r.dir), e + (MeterExprs(r, proto, v6) + MeterTail(r, v6))),
               (User(r.dir), e + [Counter, Jump(UserLimitAccept)]));
    }

    /** A logged limit works on a clone of m, because its log entry owns m's room. */
    method AddLimit(r: Rule, proto: Proto, v6: bool, m: Slice)
      requires Valid(G()) && Readable(m) && (r.log == LogNone ==> Owned(G(), m)) && r.action == Limit
      modifies this`mem, this`exprArenas, this`ruleArenas, this`rules, this`windows, this`alloc
      ensures Valid(G()) && Stored(G()) == old(Stored(G())) + ActionEmits(r, proto, v6, old(Read(mem, m)))
      ensures alloc == LimitAlloc(r, v6, old(alloc))
    {
      var limitMatch := m;
      if r.log != LogNone {
        limitMatch := Append(NIL, Read(mem, m));
        assert [] + Read(old(mem), m) == Read(old(mem), m);
      }
      CompileLimit(r, proto, v6, limitMatch);
    }

    method AddAction(r: Rule, proto: Proto, v6: bool, m: Slice)
      requires Valid(G()) && Readable(m) && (r.log == LogNone ==> Owned(G(), m))
      modifies this`mem, this`exprArenas, this`ruleArenas, this`rules, this`windows, this`alloc
      ensures Valid(G()) && Stored(G()) == old(Stored(G())) + ActionEmits(r, proto, v6, old(Read(mem, m)))
      ensures alloc == LimitAlloc(r, v6, old(alloc))
    {
      if r.action == Limit {
        AddLimit(r, proto, v6, m);
      } else {
        AddVerdict(r, m);
      }
    }

    /** All entries of one variant. */
    method CompileVariant(r: Rule, proto: Proto, v6: bool) returns (ok: bool)
      requires Valid(G())
      modifies this`mem, this`exprArenas, this`ruleArenas, this`rules, this`windows, this`alloc
      ensures Valid(G()) && (ok <==> !MatchFails(r, proto, v6) && r.action != UnknownAction)
      ensures ok ==> Stored(G()) == old(Stored(G())) + VariantEmits(r, proto, v6, old(alloc))
      ensures ok ==> alloc == VariantAlloc(r, proto, v6, old(alloc))
    {
      ghost var was, es := Stored(G()), MatchExprs(r, proto, v6, alloc);
      var m;
      ok, m := RuleMatch(r, proto, v6);
      if !ok {
        return;
      }
      if r.log != LogNone {
        AddLogging(r, m);
      } else {
        NothingAdded(was);
      }
      if r.action == UnknownAction {
        return false;
      }
      AddAction(r, proto, v6, m);
      AssocEmitted(was, LogEmits(r, es), ActionEmits(r, proto, v6, es));
    }

    /** All variants of one rule; a disabled or expired rule adds nothing. */
    method CompileRule(r: Rule, v6: bool, now: int) returns (ok: bool)
      requires Valid(G())
      modifies this`mem, this`exprArenas, this`ruleArenas, this`rules, this`windows, this`alloc
      ensures Valid(G()) && (ok <==> !RuleFails(r, v6, now))
      ensures ok ==> Stored(G()) == old(Stored(G())) + RuleEmits(r, v6, now, old(alloc))
      ensures ok ==> alloc == RuleAlloc(r, v6, now, old(alloc))
    {
      ghost var was, a := Stored(G()), alloc;
      NothingAdded(was);
      if !r.Active(now) {
        return true;
      }
      var variants := Variants(r);
      RuleAllocUpTo(r, v6, now, a);
      for i := 0 to |variants|
        invariant Valid(G()) && Stored(G()) == was + EmitsUpTo(r, v6, a, i)
        invariant alloc == AllocUpTo(r, v6, a, i)
        invariant forall j :: 0 <= j < i ==> !MatchFails(r, variants[j], v6)
        invariant i > 0 ==> r.action != UnknownAction
      {
        ok := CompileVariant(r, variants[i], v6);
        if !ok {
          return;
        }
        AssocEmitted(was, EmitsUpTo(r, v6, a, i), VariantEmits(r, variants[i], v6, AllocUpTo(r, v6, a, i)));
      }
      ok := true;
    }

    /** All rules of one family. */
    method CompileList(list: seq<Rule>, v6: bool, now: int) returns (ok: bool)
      requires Valid(G())
      modifies this`mem, this`exprArenas, this`ruleArenas, this`rules, this`windows, this`alloc
      ensures Valid(G()) && (ok <==> !ListFails(list, v6, now))
      ensures ok ==> Stored(G()) == old(Stored(G())) + ListEmits(list, v6, now, old(alloc))
      ensures ok ==> alloc == ListAlloc(list, v6, now, old(alloc))
    {
      ghost var goal, end := Stored(G()) + ListEmits(list, v6, now, alloc), ListAlloc(list, v6, now, alloc);
      assert list[0..] == list;
      for i := 0 to |list|
        invariant Valid(G())
        invariant Stored(G()) + ListEmits(list[i..], v6, now, alloc) == goal
        invariant ListAlloc(list[i..], v6, now, alloc) == end
        invariant forall j :: 0 <= j < i ==> !RuleFails(list[j], v6, now)
      {
        ListStep(list, i, v6, now, alloc, Stored(G()));
        ok := CompileRule(list[i], v6, now);
        if !ok {
          return;
        }
      }
      NothingAdded(Stored(G()));
      ok := true;
    }

    // ---- the fixed part ------------------------------------------------------------------

    method AddAll(chain: Chain, list: seq<seq<Expr>>)
      requires Valid(G())
      modifies this`mem, this`exprArenas, this`ruleArenas, this`rules, this`windows
      ensures Valid(G()) && Stored(G()) == old(Stored(G())) + Tagged(chain, list)
    {
      ghost var was := Stored(G());
      NothingAdded(was);
      for i := 0 to |list|
        invariant Valid(G()) && Stored(G()) == was + Tagged(chain, list[..i])
      {
        AddJoined(chain, list[i]);
        assert list[..i + 1] == list[..i] + [list[i]];
        TaggedSnoc(chain, list[..i], list[i]);
        AssocEmitted(was, Tagged(chain, list[..i]), [(chain, list[i])]);
      }
      assert list[..|list|] == list;
    }

    method AddFixed(contents: Chain -> seq<seq<Expr>>)
      requires Valid(G())
      modifies this`mem, this`exprArenas, this`ruleArenas, this`rules, this`windows
      ensures Valid(G()) && Stored(G()) == old(Stored(G())) + FixedEmits(contents, 0)
    {
      ghost var goal := Stored(G()) + FixedEmits(contents, 0);
      for i := 0 to CHAINS
        invariant Valid(G()) && Stored(G()) + FixedEmits(contents, i) == goal
      {
        ghost var before := Stored(G());
        AddAll(ChainAt(i), contents(ChainAt(i)));
        AssocEmitted(before, Tagged(ChainAt(i), contents(ChainAt(i))), FixedEmits(contents, i + 1));
      }
      NothingAdded(Stored(G()));
    }

    // ---- sets ---------------------------------------------------------------------------

    /** The bans that have not expired go into the first two sets. */
    method CompileThreatBans(st: State, now: int, sort: Sorting) returns (ok: bool)
      requires IsSorting(sort)
      requires alloc == NO_SETS
      modifies this`alloc
      ensures ok <==> !AddressesFail(ActiveBans(st.bans, now))
      ensures ok ==> alloc == BanAlloc(st, now, sort)
    {
      var addresses := [];
      ghost var all := ActiveBans(st.bans, now);
      assert st.bans[0..] == st.bans;
      for i := 0 to |st.bans|
        invariant addresses + ActiveBans(st.bans[i..], now) == all
      {
        assert st.bans[i..][1..] == st.bans[i + 1..];
        if st.bans[i].expiresAt > now {
          addresses := addresses + [st.bans[i].address];
        }
      }
      assert addresses == all;
      var v4, v6;
      ok, v4, v6 := CompileAddressSet(addresses, sort);
      if ok {
        alloc := Created(Created(alloc, ThreatBans(false), 4, v4), ThreatBans(true), 16, v6);
      }
    }

    method CompileNamedSet(s: IpSet, sort: Sorting) returns (ok: bool)
      requires IsSorting(sort)
      modifies this`alloc
      ensures ok <==> !AddressesFail(s.elements)
      ensures ok ==> alloc == WithNamed(s, old(alloc), sort)
    {
      var v4, v6;
      ok, v4, v6 := CompileAddressSet(s.elements, sort);
      if ok {
        alloc := Created(alloc, NamedSet(SetText(s.name, false)), 4, v4);
        alloc := Created(alloc, NamedSet(SetText(s.name, true)), 16, v6);
      }
    }

    method CompileNamedSets(sets: seq<IpSet>, sort: Sorting) returns (ok: bool)
      requires IsSorting(sort)
      modifies this`alloc
      ensures ok <==> forall i :: 0 <= i < |sets| ==> !AddressesFail(sets[i].elements)
      ensures ok ==> alloc == NamedAlloc(sets, old(alloc), sort)
    {
      assert sets[0..] == sets;
      for i := 0 to |sets|
        invariant NamedAlloc(sets[i..], alloc, sort) == NamedAlloc(sets, old(alloc), sort)
        invariant forall j :: 0 <= j < i ==> !AddressesFail(sets[j].elements)
      {
        NamedStep(sets, i, alloc, sort);
        ok := CompileNamedSet(sets[i], sort);
        if !ok {
          return;
        }
      }
      ok := true;
    }

    /** User rules of both families. */
    method CompileUserRules(st: State, now: int, sort: Sorting) returns (ok: bool)
      requires Valid(G()) && alloc == BaseAlloc(st, now, sort)
      modifies this`mem, this`exprArenas, this`ruleArenas, this`rules, this`windows, this`alloc
      ensures Valid(G()) && (ok <==> !ListFails(st.rules4, false, now) && !ListFails(st.rules6, true, now))
      ensures ok ==> Stored(G()) == old(Stored(G())) + UserEmits(st, now, sort) && alloc == FinalAlloc(st, now, sort)
    {
      ghost var was, a := Stored(G()), alloc;
      ok := CompileList(st.rules4, false, now);
      if !ok {
        return;
      }
      ok := CompileList(st.rules6, true, now);
      AssocEmitted(was, ListEmits(st.rules4, false, now, a), ListEmits(st.rules6, true, now, ListAlloc(st.rules4, false, now, a)));
    }

    /** The whole compile outside panic. */
    method Fill(st: State, etc: Defaults, now: int, fixed: FixedRules, sort: Sorting) returns (ok: bool)
      requires IsSorting(sort)
      requires Valid(G()) && Stored(G()) == [] && alloc == NO_SETS && !st.panic
      modifies this
      ensures Valid(G()) && (ok <==> !CompileFails(st, now))
      ensures ok ==> Stored(G()) == ProgramEmits(st, etc, now, fixed, sort) && alloc == FinalAlloc(st, now, sort)
    {
      ok := CompileThreatBans(st, now, sort);
      if !ok {
        return;
      }
      ok := CompileNamedSets(st.sets, sort);
      if !ok {
        return;
      }
      var contents := c => FixedContents(st, etc, now, fixed, c, sort);
      AddFixed(contents);
      NothingBefore(FixedEmits(contents, 0));
      ok := CompileUserRules(st, now, sort);
    }
  }

  /** Compiles a state. Whatever the appends shared on the way, each chain of the finished
      graph reads back as the specified list, and the sets are the specified sets. */
  method CompileGraph(st: State, etc: Defaults, now: int, fixed: FixedRules, ruleCap: nat, sort: Sorting) returns (c: Compiled, ok: bool)
    requires IsSorting(sort)
    ensures Valid(c.G()) && (ok <==> CompileState(st, etc, now, fixed, sort).Ok?)
    ensures ok ==> forall ch :: ChainOf(Stored(c.G()), ch) == CompileState(st, etc, now, fixed, sort).value.chains(ch)
    ensures ok ==> c.alloc.sets == CompileState(st, etc, now, fixed, sort).value.sets
    ensures ok ==> c.alloc.batch == CompileState(st, etc, now, fixed, sort).value.batch
  {
    c := new Compiled(ruleCap);
    if st.panic {
      return c, true;
    }
    ok := c.Fill(st, etc, now, fixed, sort);
    if ok {
      forall ch ensures ChainOf(Stored(c.G()), ch) == ChainContents(st, etc, now, fixed, ch, sort) {
        ProgramChain(st, etc, now, fixed, ch, sort);
      }
    }
  }

  // ---- lists of added rules ------------------------------------------------------------

  lemma NamedStep(sets: seq<IpSet>, i: nat, a: Alloc, sort: Sorting)
    requires i < |sets|
    ensures NamedAlloc(sets[i..], a, sort) == NamedAlloc(sets[i + 1..], WithNamed(sets[i], a, sort), sort)
  {
    assert sets[i..][1..] == sets[i + 1..];
  }

  lemma NothingAdded(e: Emitted)
    ensures e + [] == e
  {
  }

  lemma NothingBefore(e: Emitted)
    ensures [] + e == e
  {
  }

  lemma AssocEmitted(a: Emitted, b: Emitted, c: Emitted)
    ensures (a + b) + c == a + (b + c)
  {
  }

  lemma TwoAdded(e: Emitted, x: (Chain, seq<Expr>), y: (Chain, seq<Expr>))
    ensures e + [x] + [y] == e + [x, y]
  {
  }

  lemma ThreeAdded(e: Emitted, r: Rule, m: seq<Expr>)
    requires r.log != LogNone
    ensures e + [(UserLogging(r.dir), m + (NewOnly(r) + [LIMIT3, Log(LogPrefix(r.action))]))]
              + [(UserLogging(r.dir), m + (NewOnly(r) + [Counter, Return]))]
              + [(User(r.dir), m + ([] + [Counter, Jump(UserLogging(r.dir))]))]
         == e + LogEmits(r, m)
  {
    assert [] + [Counter, Jump(UserLogging(r.dir))] == [Counter, Jump(UserLogging(r.dir))];
  }

  lemma Assoc3(a: seq<Expr>, b: seq<Expr>, c: seq<Expr>)
    ensures (a + b) + c == a + (b + c)
  {
  }

  lemma MatchShape(r: Rule, proto: Proto, v6: bool, a: Alloc)
    ensures MatchExprs(r, proto, v6, a)
         == FamilyExprs(v6) + IfacePairExprs(r) + ProtoExprs(r, proto)
            + (EndpointExprs(r.src, false, v6) + EndpointExprs(r.dst, true, v6)) + PortPairExprs(r, proto, a)
  {
    Assoc3(FamilyExprs(v6) + IfacePairExprs(r) + ProtoExprs(r, proto),
           EndpointExprs(r.src, false, v6), EndpointExprs(r.dst, true, v6));
  }

  // ---- address sets -----------------------------------------------------------------------

  method CollectFamily(es: seq<Ip>, n: nat) returns (ok: bool, ivs: seq<Interval>)
    ensures ok <==> !AddressesFail(es)
    ensures ok ==> ivs == FamilyIntervals(es, n)
  {
    ivs := [];
    assert es[0..] == es;
    for i := 0 to |es|
      invariant ivs + FamilyIntervals(es[i..], n) == FamilyIntervals(es, n)
      invariant forall j :: 0 <= j < i ==> IsAddress(es[j])
    {
      assert es[i..][1..] == es[i + 1..];
      if !IsAddress(es[i]) {
        return false, ivs;
      }
      if |es[i].bytes| == n {
        var end := IntervalEnd(es[i].bytes, es[i].ones);
        ivs := ivs + [Interval(Val(es[i].bytes), end)];
      }
    }
    ok := true;
  }

  method MergeFamily(list: seq<Interval>, sort: Sorting) returns (merged: seq<Interval>)
    requires IsSorting(sort)
    ensures merged == Compact(sort(list))
  {
    var ivs := new Interval[|list|](k requires 0 <= k < |list| => list[k]);
    assert ivs[..] == list;
    var count := MergeAddrIntervals(ivs, sort);
    merged := ivs[..count];
  }

  method FamilySet(list: seq<Interval>, n: nat, sort: Sorting) returns (body: SetBody)
    requires IsSorting(sort)
    ensures body == SetBody(AddressElems(Compact(sort(list)), n), true)
  {
    var merged := MergeFamily(list, sort);
    var elems := [];
    assert merged[0..] == merged;
    for i := 0 to |merged|
      invariant elems + AddressElems(merged[i..], n) == AddressElems(merged, n)
    {
      assert merged[i..][1..] == merged[i + 1..];
      elems := elems + [Elem(Encode(merged[i].start, n), false), Elem(BoundKey(merged[i].end, n), true)];
    }
    assert elems == AddressElems(merged, n);
    body := SetBody(elems, true);
  }

  /** The merged elements of both families. */
  method CompileAddressSet(es: seq<Ip>, sort: Sorting) returns (ok: bool, v4: SetBody, v6: SetBody)
    requires IsSorting(sort)
    ensures ok <==> !AddressesFail(es)
    ensures ok ==> v4 == AddressSet(es, 4, sort) && v6 == AddressSet(es, 16, sort)
  {
    v4, v6 := SetBody([], true), SetBody([], true);
    var iv4, iv6;
    ok, iv4 := CollectFamily(es, 4);
    if ok {
      ok, iv6 := CollectFamily(es, 16);
      v4 := FamilySet(iv4, 4, sort);
      v6 := FamilySet(iv6, 16, sort);
    }
  }

  // ---- counting and collecting port ranges -----------------------------------------------

  lemma {:induction false} SelectedSnoc(ports: seq<PortRange>, i: nat, tcp: bool)
    requires i < |ports|
    ensures Selected(ports[..i + 1], tcp)
         == Selected(ports[..i], tcp) + if Selects(ports[i], tcp) then [ports[i]] else []
  {
    SelectedConcat(ports[..i], [ports[i]], tcp);
    assert ports[..i + 1] == ports[..i] + [ports[i]];
    assert [ports[i]][1..] == [];
  }

  lemma {:induction false} SelectedConcat(a: seq<PortRange>, b: seq<PortRange>, tcp: bool)
    ensures Selected(a + b, tcp) == Selected(a, tcp) + Selected(b, tcp)
  {
    if a == [] {
      assert a + b == b;
    } else {
      assert (a + b)[1..] == a[1..] + b;
      SelectedConcat(a[1..], b, tcp);
    }
  }

  lemma {:induction false} PortElemsSnoc(ports: seq<PortRange>, p: PortRange, interval: bool)
    ensures PortElems(ports + [p], interval)
         == PortElems(ports, interval) + if interval then PortIntervalElems(p.lo, p.hi) else [Elem(Port(p.lo), false)]
  {
    if ports == [] {
      assert ports + [p] == [p] && [p][1..] == [];
    } else {
      assert (ports + [p])[1..] == ports[1..] + [p];
      PortElemsSnoc(ports[1..], p, interval);
    }
  }

  method CountSelected(ports: seq<PortRange>, tcp: bool) returns (matched: nat, first: PortRange)
    ensures matched == |Selected(ports, tcp)|
    ensures matched > 0 ==> first == Selected(ports, tcp)[0]
  {
    matched, first := 0, PortRange(0, 0, Blank);
    for i := 0 to |ports|
      invariant matched == |Selected(ports[..i], tcp)|
      invariant matched > 0 ==> first == Selected(ports[..i], tcp)[0]
    {
      SelectedSnoc(ports, i, tcp);
      if Selects(ports[i], tcp) {
        matched := matched + 1;
        if matched == 1 {
          first := ports[i];
        }
      }
    }
    assert ports[..|ports|] == ports;
  }

  /** Whether an interval set is needed, and the elements of the ranges that apply. */
  method BuildPortElems(ports: seq<PortRange>, tcp: bool) returns (elems: seq<Elem>, interval: bool)
    ensures SetBody(elems, interval) == PortSet(Selected(ports, tcp))
  {
    interval := false;
    for i := 0 to |ports|
      invariant interval == AnyMulti(Selected(ports[..i], tcp))
    {
      SelectedSnoc(ports, i, tcp);
      AnyMultiSnoc(Selected(ports[..i], tcp), ports[i]);
      if !Selects(ports[i], tcp) {
        assert Selected(ports[..i], tcp) + [] == Selected(ports[..i], tcp);
        continue;
      }
      if ports[i].lo != ports[i].hi {
        interval := true;
      }
    }
    elems := CollectPortElems(ports, tcp, interval);
    assert ports[..|ports|] == ports;
  }

  lemma AnyMultiSnoc(s: seq<PortRange>, p: PortRange)
    ensures AnyMulti(s + [p]) <==> AnyMulti(s) || p.lo != p.hi
  {
    if p.lo != p.hi {
      assert (s + [p])[|s|].lo != (s + [p])[|s|].hi;
    }
    if AnyMulti(s) {
      var i :| 0 <= i < |s| && s[i].lo != s[i].hi;
      assert (s + [p])[i].lo != (s + [p])[i].hi;
    }
  }

  method CollectPortElems(ports: seq<PortRange>, tcp: bool, interval: bool) returns (elems: seq<Elem>)
    ensures elems == PortElems(Selected(ports, tcp), interval)
  {
    elems := [];
    for i := 0 to |ports|
      invariant elems == PortElems(Selected(ports[..i], tcp), interval)
    {
      SelectedSnoc(ports, i, tcp);
      PortElemsSnoc(Selected(ports[..i], tcp), ports[i], interval);
      if !Selects(ports[i], tcp) {
        assert Selected(ports[..i], tcp) + [] == Selected(ports[..i], tcp);
      } else {
        elems := elems + if interval then PortIntervalElems(ports[i].lo, ports[i].hi) else [Elem(Port(ports[i].lo), false)];
      }
    }
    assert ports[..|ports|] == ports;
  }
}
