/** An accepted dump makes a state that can be compiled into kernel fields: addresses and ports
    are valid because they were accepted, and interface names are those of the dump. */
module ImportValid {
  import opened Rules
  import opened Store
  import opened PortOrder
  import opened Iptables
  import opened IptSave
  import opened IptImport
  import opened IptPolicy
  import opened Merge

  /** Interface names of a saved rule fit the kernel's field. */
  predicate NamesFit(spec: Spec) {
    forall i :: 0 <= i < |spec| && spec[i].IfaceOpt? ==> CleanPattern(spec[i].name)
  }

  predicate SpecsFit(specs: seq<Spec>) {
    forall i :: 0 <= i < |specs| ==> NamesFit(specs[i])
  }

  predicate LinesFit(lines: seq<Line>) {
    forall i :: 0 <= i < |lines| && (lines[i].AppendRule? || lines[i].InsertRule?) ==> NamesFit(lines[i].spec)
  }

  predicate DumpFits(lines: Option<seq<Line>>) {
    lines.Some? ==> LinesFit(lines.value)
  }

  predicate Storable(r: Rule) {
    r.ValidAddrs() && Encodable(r)
  }

  ghost predicate AllStorable(rules: seq<Rule>) {
    forall i :: 0 <= i < |rules| ==> Storable(rules[i])
  }

  // ---- one rule -------------------------------------------------------------------------------

  lemma {:induction false} GatherFits(spec: Spec, v6: bool)
    requires NamesFit(spec) && Gather(spec, v6).Ok?
    ensures var g := Gather(spec, v6).value;
      (g.ifIn.Some? ==> CleanPattern(g.ifIn.value)) && (g.ifOut.Some? ==> CleanPattern(g.ifOut.value))
  {
    if spec != [] {
      var n := |spec| - 1;
      assert forall i :: 0 <= i < n ==> spec[..n][i] == spec[i];
      GatherFits(spec[..n], v6);
      TakeFits(Gather(spec[..n], v6).value, spec[n], v6);
    }
  }

  lemma TakeFits(g: Gathered, o: Opt, v6: bool)
    requires Take(g, o, v6).Ok? && (o.IfaceOpt? ==> CleanPattern(o.name))
    ensures var t := Take(g, o, v6).value;
      && (t.ifIn == g.ifIn || (t.ifIn.Some? && CleanPattern(t.ifIn.value)))
      && (t.ifOut == g.ifOut || (t.ifOut.Some? && CleanPattern(t.ifOut.value)))
  {
  }

  lemma PortsFitField(spans: Option<seq<Span>>, proto: Proto)
    requires spans.Some? ==> GoodSpans(spans.value)
    ensures ValidPorts(PortsOf(spans, proto))
  {
    if spans.Some? {
      var ranges := RangesOf(spans.value, proto);
      SortMembers(ranges);
      var ports := PortsOf(spans, proto);
      forall i | 0 <= i < |ports| ensures ports[i].lo < 65536 && ports[i].hi < 65536 {
        assert ports[i] in ranges;
      }
    }
  }

  lemma CanonValid(ip: Option<Ip>, v6: bool)
    requires ip.Some? ==> FamilyIp(ip.value, v6)
    ensures CanonIp(ip).Valid()
  {
  }

  lemma RuleEncodable(g: Gathered, dir: Direction, action: Action, v6: bool)
    requires (g.sport.Some? ==> GoodSpans(g.sport.value)) && (g.dport.Some? ==> GoodSpans(g.dport.value))
    requires (g.ifIn.Some? ==> CleanPattern(g.ifIn.value)) && (g.ifOut.Some? ==> CleanPattern(g.ifOut.value))
    ensures Encodable(RuleOf(g, dir, action, v6))
  {
    var proto := if g.proto.Some? then g.proto.value else AnyProto;
    PortsFitField(g.sport, proto);
    PortsFitField(g.dport, proto);
  }

  lemma RuleAddrs(g: Gathered, dir: Direction, action: Action, v6: bool)
    requires CanonIp(g.src).Valid() && CanonIp(g.dst).Valid()
    ensures RuleOf(g, dir, action, v6).ValidAddrs()
  {
  }

  lemma RuleStorable(g: Gathered, dir: Direction, action: Action, v6: bool)
    requires WellGathered(g, v6)
    requires (g.ifIn.Some? ==> CleanPattern(g.ifIn.value)) && (g.ifOut.Some? ==> CleanPattern(g.ifOut.value))
    ensures Storable(RuleOf(g, dir, action, v6))
  {
    CanonValid(g.src, v6);
    CanonValid(g.dst, v6);
    RuleAddrs(g, dir, action, v6);
    RuleEncodable(g, dir, action, v6);
  }

  lemma EmittedStorable(spec: Spec, dir: Direction, v6: bool, first: bool)
    requires NamesFit(spec) && Parse(spec, dir, v6, first).Emit?
    ensures Storable(Parse(spec, dir, v6, first).rule)
  {
    GatherShape(spec, v6);
    GatherFits(spec, v6);
    FinishShape(Gather(spec, v6).value, dir, v6, first);
    RuleStorable(Gather(spec, v6).value, dir, Parse(spec, dir, v6, first).rule.action, v6);
  }

  // ---- one dump -------------------------------------------------------------------------------

  lemma {:induction false} ChainStorable(specs: seq<Spec>, dir: Direction, v6: bool, emitted: nat)
    requires SpecsFit(specs) && ChainRules(specs, dir, v6, emitted).Ok?
    ensures AllStorable(ChainRules(specs, dir, v6, emitted).value)
  {
    if specs != [] {
      assert forall i :: 0 <= i < |specs[1..]| ==> specs[1..][i] == specs[i + 1];
      match Parse(specs[0], dir, v6, emitted == 0)
      case Emit(r) =>
        EmittedStorable(specs[0], dir, v6, emitted == 0);
        ChainStorable(specs[1..], dir, v6, emitted + 1);
      case Skip => ChainStorable(specs[1..], dir, v6, emitted);
      case _ =>
    }
  }

  lemma {:induction false} RestoredFits(lines: seq<Line>, table: string, chain: string)
    requires LinesFit(lines)
    ensures SpecsFit(Restored(lines, table, chain))
  {
    if lines != [] {
      var n := |lines| - 1;
      assert forall i :: 0 <= i < n ==> lines[..n][i] == lines[i];
      RestoredFits(lines[..n], table, chain);
    }
  }

  lemma {:induction false} TableStorable(t: Table, names: seq<string>, v6: bool)
    requires TableRules(t, names, v6).Ok? && forall name :: SpecsFit(Lookup(t, name).rules)
    ensures AllStorable(TableRules(t, names, v6).value)
  {
    if names != [] {
      TableStorable(t, names[1..], v6);
      if BuiltinDir(names[0]).Some? {
        ChainStorable(Lookup(t, names[0]).rules, BuiltinDir(names[0]).value, v6, 0);
      }
    }
  }

  lemma StreamStorable(lines: Option<seq<Line>>, v6: bool)
    requires DumpFits(lines) && StreamFor(lines, v6).Ok?
    ensures AllStorable(StreamFor(lines, v6).value.rules)
  {
    if lines.Some? && "filter" in Parsed(lines.value).value.tables {
      var t := Parsed(lines.value).value.tables["filter"];
      forall name ensures SpecsFit(Lookup(t, name).rules) {
        FoldExact(lines.value, "filter", name);
        RestoredFits(lines.value, "filter", name);
      }
      TableStorable(t, t.order, v6);
    }
  }

  // ---- the merged lists -------------------------------------------------------------------------

  lemma {:induction false} MergedStorable(src: seq<Rule>, ids: seq<string>)
    requires |ids| == |src| && AllStorable(src)
    ensures AllStorable(Merged([], src, ids))
  {
    if src != [] {
      var n := |src| - 1;
      MergedStorable(src[..n], ids[..n]);
    }
  }

  lemma CatchallStorable(rules: seq<Rule>, v6: bool, d: Direction, eff: PolicyWord, base: PolicyWord, id: string)
    requires AllStorable(rules)
    ensures AllStorable(Emulated(rules, v6, d, eff, base, id))
  {
  }

  ghost predicate ListsStorable(l: Lists) {
    AllStorable(l.rules4) && AllStorable(l.rules6)
  }

  lemma OneChainStorable(l: Lists, d: Direction, p4: Option<PolicyWord>, p6: Option<PolicyWord>, v6Enabled: bool, ids: Draws)
    requires ListsStorable(l)
    ensures ListsStorable(OneChain(l, d, p4, p6, v6Enabled, ids))
  {
    var stored := l.policies.For(d);
    var base := Base(stored, p4, p6, v6Enabled);
    CatchallStorable(l.rules4, false, d, FamilyPolicy(p4, stored), base, ids.catchall(d, false));
    CatchallStorable(l.rules6, true, d, FamilyPolicy(p6, stored), base, ids.catchall(d, true));
  }

  lemma ThreeChainsStorable(l: Lists, s4: Stream, s6: Stream, v6Enabled: bool, ids: Draws)
    requires ListsStorable(l)
    ensures ListsStorable(ThreeChains(l, s4, s6, v6Enabled, ids))
  {
    var l1 := OneChain(l, In, s4.input, s6.input, v6Enabled, ids);
    OneChainStorable(l, In, s4.input, s6.input, v6Enabled, ids);
    OneChainStorable(l1, Out, s4.output, s6.output, v6Enabled, ids);
    OneChainStorable(OneChain(l1, Out, s4.output, s6.output, v6Enabled, ids), Routed, s4.forward, s6.forward, v6Enabled, ids);
  }

  /** Imported into a valid state without rules, a dump whose interface names fit gives a valid state. */
  lemma ImportStaysValid(v4: Option<seq<Line>>, v6: Option<seq<Line>>, st: State, ids: Draws)
    requires st.Valid() && st.rules4 == st.rules6 == [] && DumpFits(v4) && DumpFits(v6)
    requires Import(v4, v6, st, ids).Ok?
    ensures Import(v4, v6, st, ids).value.Valid()
  {
    var s4, s6 := StreamFor(v4, false).value, StreamFor(v6, true).value;
    StreamStorable(v4, false);
    StreamStorable(v6, true);
    var ids4, ids6 := Drawn(ids.merge4, |s4.rules|), Drawn(ids.merge6, |s6.rules|);
    MergedStorable(s4.rules, ids4);
    MergedStorable(s6.rules, ids6);
    var l := Lists(Merged([], s4.rules, ids4), Merged([], s6.rules, ids6), st.policies);
    ThreeChainsStorable(l, s4, s6, st.ipv6 || v6.Some?, ids);
  }
}
