/** Interval sets whose intervals overlap, which the kernel refuses: address sets never do, and
    port sets do when a rule lists different ranges that share a port. */
module SetOverlap {
  import opened Bits
  import opened Bytes
  import opened Cidr
  import opened Intervals
  import opened Rules
  import opened Nft
  import opened Store
  import opened Compile
  import opened CompileMatch
  import opened AddressSets
  import opened CompileSets
  import opened SetBatch
  import Command
  import Parser
  import PortOrder
  import Reparse

  /** The m-th start and end marker enclose the key. */
  predicate PairEncloses(s: SetBody, m: nat, key: seq<Byte>)
    requires 2 * m + 1 < |s.elems|
  {
    PairHas(s.elems[2 * m], s.elems[2 * m + 1], key)
  }

  predicate SamePair(s: SetBody, m: nat, n: nat)
    requires 2 * m + 1 < |s.elems| && 2 * n + 1 < |s.elems|
  {
    s.elems[2 * m] == s.elems[2 * n] && s.elems[2 * m + 1] == s.elems[2 * n + 1]
  }

  /** Two different intervals of the set share a key. */
  ghost predicate Overlapping(s: SetBody) {
    s.interval && exists m, n, key ::
      0 <= m < |s.elems| / 2 && 0 <= n < |s.elems| / 2
      && PairEncloses(s, m, key) && PairEncloses(s, n, key) && !SamePair(s, m, n)
  }

  // ---- address sets -----------------------------------------------------------------------------

  lemma {:induction false} AddressElemAt(ivs: seq<Interval>, n: nat, i: nat)
    requires i < |ivs|
    ensures |AddressElems(ivs, n)| == 2 * |ivs|
    ensures AddressElems(ivs, n)[2 * i] == Elem(Encode(ivs[i].start, n), false)
    ensures AddressElems(ivs, n)[2 * i + 1] == Elem(BoundKey(ivs[i].end, n), true)
  {
    AddressCount(ivs, n);
    if i > 0 {
      AddressElemAt(ivs[1..], n, i - 1);
    }
  }

  lemma {:induction false} AddressCount(ivs: seq<Interval>, n: nat)
    ensures |AddressElems(ivs, n)| == 2 * |ivs|
  {
    if ivs != [] {
      AddressCount(ivs[1..], n);
    }
  }

  lemma SeparatedApart(ivs: seq<Interval>, i: nat, j: nat, x: nat)
    requires Separated(ivs) && AllNonEmpty(ivs) && i < |ivs| && j < |ivs| && ivs[i].Has(x) && ivs[j].Has(x)
    ensures i == j
  {
  }

  lemma EnclosedHas(ivs: seq<Interval>, n: nat, i: nat, key: seq<Byte>)
    requires Fits(ivs, n) && i < |ivs| && |AddressElems(ivs, n)| == 2 * |ivs|
    requires PairEncloses(SetBody(AddressElems(ivs, n), true), i, key)
    ensures ivs[i].Has(Val(key))
  {
    AddressElemAt(ivs, n, i);
    PairExact(ivs[i], n, key);
  }

  /** Merged intervals are apart, whatever order the sort left. */
  lemma AddressSetApart(es: seq<Ip>, n: nat, sort: Sorting)
    requires IsSorting(sort)
    ensures !Overlapping(AddressSet(es, n, sort))
  {
    var s := SortedFamily(es, n, sort);
    var ivs, body := Compact(s), AddressSet(es, n, sort);
    FitsCompact(s, n);
    AddressCount(ivs, n);
    if s != [] {
      CompactSeparates(s);
    }
    if Overlapping(body) {
      var i, j, key :| 0 <= i < |ivs| && 0 <= j < |ivs|
        && PairEncloses(body, i, key) && PairEncloses(body, j, key) && !SamePair(body, i, j);
      EnclosedHas(ivs, n, i, key);
      EnclosedHas(ivs, n, j, key);
      SeparatedApart(ivs, i, j, Val(key));
    }
  }

  // ---- port sets --------------------------------------------------------------------------------

  /** Different ranges with a port in common. */
  predicate Meet(a: PortRange, b: PortRange) {
    (a.lo != b.lo || a.hi != b.hi) && a.lo <= b.hi && b.lo <= a.hi && a.lo <= a.hi && b.lo <= b.hi
  }

  predicate SomeMeet(ports: seq<PortRange>) {
    exists i, j :: 0 <= i < |ports| && 0 <= j < |ports| && Meet(ports[i], ports[j])
  }

  function EndKey(hi: nat): seq<Byte> {
    if hi == 65535 then Port(0) else Port(hi + 1)
  }

  lemma {:induction false} PortElemAt(ports: seq<PortRange>, i: nat)
    requires i < |ports|
    ensures |PortElems(ports, true)| == 2 * |ports|
    ensures PortElems(ports, true)[2 * i] == Elem(Port(ports[i].lo), false)
    ensures PortElems(ports, true)[2 * i + 1] == Elem(EndKey(ports[i].hi), true)
  {
    PortCount(ports);
    if i > 0 {
      PortElemAt(ports[1..], i - 1);
    }
  }

  lemma {:induction false} PortCount(ports: seq<PortRange>)
    ensures |PortElems(ports, true)| == 2 * |ports|
  {
    if ports != [] {
      PortCount(ports[1..]);
    }
  }

  lemma EndVal(hi: nat)
    requires hi < 65536
    ensures Val(EndKey(hi)) == if hi == 65535 then 0 else hi + 1
  {
    PortVal(if hi == 65535 then 0 else hi + 1);
  }

  lemma PortEnclosed(ports: seq<PortRange>, i: nat, key: seq<Byte>)
    requires ValidPorts(ports) && i < |ports| && |PortElems(ports, true)| == 2 * |ports| && |key| == 2
    ensures PairEncloses(SetBody(PortElems(ports, true), true), i, key)
      <==> ports[i].lo <= Val(key) && (ports[i].hi == 65535 || Val(key) <= ports[i].hi)
  {
    PortElemAt(ports, i);
    PortVal(ports[i].lo);
    EndVal(ports[i].hi);
  }

  lemma SamePortPair(ports: seq<PortRange>, i: nat, j: nat)
    requires ValidPorts(ports) && i < |ports| && j < |ports| && |PortElems(ports, true)| == 2 * |ports|
    ensures SamePair(SetBody(PortElems(ports, true), true), i, j)
      <==> ports[i].lo == ports[j].lo && ports[i].hi == ports[j].hi
  {
    PortElemAt(ports, i);
    PortElemAt(ports, j);
    PortVal(ports[i].lo);
    PortVal(ports[j].lo);
    EndVal(ports[i].hi);
    EndVal(ports[j].hi);
  }

  lemma KeyLength(ports: seq<PortRange>, i: nat, key: seq<Byte>)
    requires i < |ports| && |PortElems(ports, true)| == 2 * |ports|
    requires PairEncloses(SetBody(PortElems(ports, true), true), i, key)
    ensures |key| == 2 && Val(key) < 65536
  {
    PortElemAt(ports, i);
    ValBound(key);
    Pow2Add(8, 8);
    assert Pow2(8) == 256;
  }

  lemma IntervalsMeet(ports: seq<PortRange>)
    requires ValidPorts(ports)
    ensures Overlapping(SetBody(PortElems(ports, true), true)) <==> SomeMeet(ports)
  {
    var body := SetBody(PortElems(ports, true), true);
    PortCount(ports);
    if Overlapping(body) {
      var i, j, key :| 0 <= i < |ports| && 0 <= j < |ports|
        && PairEncloses(body, i, key) && PairEncloses(body, j, key) && !SamePair(body, i, j);
      KeyLength(ports, i, key);
      PortEnclosed(ports, i, key);
      PortEnclosed(ports, j, key);
      SamePortPair(ports, i, j);
      assert Meet(ports[i], ports[j]);
    }
    if SomeMeet(ports) {
      var i, j :| 0 <= i < |ports| && 0 <= j < |ports| && Meet(ports[i], ports[j]);
      var key := Port(if ports[i].lo > ports[j].lo then ports[i].lo else ports[j].lo);
      PortVal(if ports[i].lo > ports[j].lo then ports[i].lo else ports[j].lo);
      PortEnclosed(ports, i, key);
      PortEnclosed(ports, j, key);
      SamePortPair(ports, i, j);
    }
  }

  /** A compiled port set overlaps exactly when two different ranges of it share a port. */
  lemma PortSetOverlap(ports: seq<PortRange>)
    requires ValidPorts(ports)
    ensures Overlapping(PortSet(ports)) <==> SomeMeet(ports)
  {
    if AnyMulti(ports) {
      IntervalsMeet(ports);
    }
  }

  // ---- the whole batch ------------------------------------------------------------------------------

  ghost predicate NoOverlap(batch: seq<SetObject>) {
    forall k :: 0 <= k < |batch| ==> !Overlapping(batch[k].body)
  }

  lemma NoOverlapSnoc(batch: seq<SetObject>, o: SetObject)
    ensures NoOverlap(batch + [o]) <==> NoOverlap(batch) && !Overlapping(o.body)
  {
    assert forall k :: 0 <= k < |batch| ==> (batch + [o])[k] == batch[k];
    assert (batch + [o])[|batch|] == o;
  }

  /** The ranges of one side that speak about one protocol. */
  predicate SideApart(ports: seq<PortRange>, tcp: bool) {
    !SomeMeet(Selected(ports, tcp))
  }

  predicate VariantApart(r: Rule, proto: Proto) {
    TakesPorts(proto) ==> SideApart(r.src.ports, proto == Tcp) && SideApart(r.dst.ports, proto == Tcp)
  }

  /** No port list of an active rule has two different ranges that share a port. */
  predicate PortsApart(rules: seq<Rule>, now: int) {
    forall i :: 0 <= i < |rules| && rules[i].Active(now) ==> RuleApart(rules[i])
  }

  predicate RuleApart(r: Rule) {
    forall k :: 0 <= k < |Variants(r)| ==> VariantApart(r, Variants(r)[k])
  }

  lemma PortAllocOverlap(ports: seq<PortRange>, tcp: bool, a: Alloc)
    requires ValidPorts(ports)
    ensures NoOverlap(PortAlloc(ports, tcp, a).batch) <==> NoOverlap(a.batch) && SideApart(ports, tcp)
  {
    var sel := Selected(ports, tcp);
    SelectedValid(ports, tcp);
    if |sel| > 1 {
      NoOverlapSnoc(a.batch, SetObject(AnonSet(a.next + 1), 2, PortSet(sel)));
      PortSetOverlap(sel);
    }
  }

  lemma VariantOverlap(r: Rule, proto: Proto, v6: bool, a: Alloc)
    requires ValidPorts(r.src.ports) && ValidPorts(r.dst.ports)
    ensures NoOverlap(VariantAlloc(r, proto, v6, a).batch) <==> NoOverlap(a.batch) && VariantApart(r, proto)
  {
    if TakesPorts(proto) {
      PortAllocOverlap(r.src.ports, proto == Tcp, a);
      PortAllocOverlap(r.dst.ports, proto == Tcp, PortAlloc(r.src.ports, proto == Tcp, a));
    }
    var b := MatchAlloc(r, proto, a);
    NoOverlapSnoc(b.batch, SetObject(LimitSet(LimitText(r, v6)), LimitKeyLen(v6), SetBody([], false)));
  }

  lemma RuleOverlap(r: Rule, v6: bool, now: int, a: Alloc)
    requires ValidPorts(r.src.ports) && ValidPorts(r.dst.ports)
    ensures NoOverlap(RuleAlloc(r, v6, now, a).batch) <==> NoOverlap(a.batch) && (r.Active(now) ==> RuleApart(r))
  {
    var v := Variants(r);
    VariantOverlap(r, v[0], v6, a);
    if |v| == 2 {
      VariantOverlap(r, v[1], v6, VariantAlloc(r, v[0], v6, a));
    }
  }

  lemma {:induction false} ListOverlap(rules: seq<Rule>, v6: bool, now: int, a: Alloc)
    requires forall i :: 0 <= i < |rules| ==> Encodable(rules[i])
    ensures NoOverlap(ListAlloc(rules, v6, now, a).batch) <==> NoOverlap(a.batch) && PortsApart(rules, now)
  {
    if rules != [] {
      RuleOverlap(rules[0], v6, now, a);
      ListOverlap(rules[1..], v6, now, RuleAlloc(rules[0], v6, now, a));
      assert forall i :: 0 < i < |rules| ==> rules[i] == rules[1..][i - 1];
      assert forall i :: 0 <= i < |rules[1..]| ==> rules[1..][i] == rules[i + 1];
    }
  }

  lemma PairNoOverlap(o: SetObject, q: SetObject, rest: seq<SetObject>)
    requires !Overlapping(o.body) && !Overlapping(q.body) && NoOverlap(rest)
    ensures NoOverlap([o, q] + rest)
  {
    assert forall k :: 0 <= k < |rest| ==> ([o, q] + rest)[k + 2] == rest[k];
  }

  lemma {:induction false} NamedNoOverlap(sets: seq<IpSet>, sort: Sorting)
    requires IsSorting(sort)
    ensures NoOverlap(NamedObjects(sets, sort))
  {
    if sets != [] {
      NamedNoOverlap(sets[1..], sort);
      AddressSetApart(sets[0].elements, 4, sort);
      AddressSetApart(sets[0].elements, 16, sort);
      PairNoOverlap(HalfObject(sets[0], false, sort), HalfObject(sets[0], true, sort), NamedObjects(sets[1..], sort));
    }
  }

  lemma BaseNoOverlap(st: State, now: int, sort: Sorting)
    requires IsSorting(sort)
    ensures NoOverlap(BaseAlloc(st, now, sort).batch)
  {
    BaseBatch(st, now, sort);
    NamedNoOverlap(st.sets, sort);
    AddressSetApart(ActiveBans(st.bans, now), 4, sort);
    AddressSetApart(ActiveBans(st.bans, now), 16, sort);
    var bans := BanObjects(st, now, sort);
    PairNoOverlap(bans[0], bans[1], NamedObjects(st.sets, sort));
    assert bans == [bans[0], bans[1]];
  }

  /** What is known of the kernel's demands: one key type a name, no overlapping intervals. */
  ghost predicate Loadable(batch: seq<SetObject>) {
    OneTypePerName(batch) && NoOverlap(batch)
  }

  /** A compiled batch meets them exactly when no set name is another one with "6" appended and
      no port list of an active rule has two different ranges that share a port. */
  lemma LoadableIff(st: State, now: int, sort: Sorting)
    requires st.Valid() && IsSorting(sort)
    ensures Loadable(FinalAlloc(st, now, sort).batch)
      <==> NoTwins(st.sets) && PortsApart(st.rules4, now) && PortsApart(st.rules6, now)
  {
    var a := BaseAlloc(st, now, sort);
    LoadsIff(st, now, sort);
    BaseNoOverlap(st, now, sort);
    ListOverlap(st.rules4, false, now, a);
    ListOverlap(st.rules6, true, now, ListAlloc(st.rules4, false, now, a));
  }

  // ---- a command that makes such a set ------------------------------------------------------------------

  const CROSSED: Command.Args :=
    [Command.Plain("allow"), Command.Ports([Command.Between(80, 90), Command.Between(85, 100)], Some("tcp"))]

  function CrossedRule(id: string): Rule {
    Parser.NewRule(id, Allow, In, LogNone, "").(proto := Tcp,
      dst := AddrSpec(AnyIp, [PortRange(80, 90, TcpPort), PortRange(85, 100, TcpPort)], ""))
  }

  lemma CrossedWords()
    ensures Parser.TakeDirection(CROSSED) == Parser.Directed(In, CROSSED)
    ensures Parser.TakeIface(CROSSED) == Ok(Parser.Stripped(false, CROSSED))
    ensures Parser.FoldSets(CROSSED) == Ok(CROSSED)
  {
    Reparse.NoClause(CROSSED);
    assert Parser.FoldSets(CROSSED[1..]) == Ok(CROSSED[1..]);
    assert [CROSSED[0]] + CROSSED[1..] == CROSSED;
  }

  lemma CrossedFlags()
    ensures Parser.TakeLog(false, CROSSED) == Ok(Parser.Logged(LogNone, CROSSED))
    ensures Parser.TakeComment(CROSSED) == Ok(Parser.Commented("", CROSSED))
  {
    assert Reparse.Lacks(CROSSED, Command.LogKey) && Reparse.Lacks(CROSSED, Command.LogAllKey);
    assert Reparse.Lacks(CROSSED, Command.CommentKey);
  }

  lemma CrossedFront()
    ensures Parser.TakeRoute(CROSSED) == Ok((false, Parser.Route(Parser.NotDeferred, CROSSED)))
    ensures Parser.TakeFront(CROSSED) == Ok(Parser.Front(Allow, In, false, LogNone, "", CROSSED))
  {
    CrossedWords();
    CrossedFlags();
    assert Command.ActionOf(CROSSED[0]) == Some(Allow);
  }

  lemma CrossedItems()
    ensures Command.ParseItems([Command.Between(80, 90), Command.Between(85, 100)])
         == Ok([PortRange(80, 90, Blank), PortRange(85, 100, Blank)])
  {
    var items := [Command.Between(80, 90), Command.Between(85, 100)];
    assert items[..1] == [items[0]] && [items[0]][..0] == [];
    assert Command.Colons([]) == 0;
    assert Command.Colons([items[0]]) == 1;
    assert Command.Colons(items) == 2;
    assert Command.ParseItems(items).value == [Command.RangeOf(items[0]), Command.RangeOf(items[1])];
  }

  lemma CrossedFinished(id: string)
    ensures var r := CrossedRule(id).(dst := AddrSpec(AnyIp, [PortRange(80, 90, Blank), PortRange(85, 100, Blank)], ""));
      Parser.Finish(Parser.Parsed(r, Parser.Both), false, Parser.NotDeferred)
      == Ok(Parser.Op(CrossedRule(id), false, Parser.Both))
  {
    var blank := [PortRange(80, 90, Blank), PortRange(85, 100, Blank)];
    var ports := [PortRange(80, 90, TcpPort), PortRange(85, 100, TcpPort)];
    assert Parser.StampPorts(blank, Tcp) == ports;
    assert PortOrder.SortPorts(ports) == ports by {
      PortOrder.SortOrdered(ports);
    }
    assert Parser.StampPorts([], Tcp) == [] && PortOrder.SortPorts([]) == [];
  }

  lemma CrossedParsed(id: string)
    ensures Parser.ParseArgs(id, CROSSED) == Ok(Parser.Op(CrossedRule(id), false, Parser.Both))
  {
    CrossedFront();
    CrossedItems();
    CrossedFinished(id);
    assert Command.ProtoOf("tcp") == Some(Tcp);
  }

  /** "allow 80:90,85:100/tcp" is accepted, and a state with its rule cannot be loaded. */
  lemma CrossedPorts(id: string, st: State, now: int, sort: Sorting)
    requires st.Valid() && IsSorting(sort) && CrossedRule(id) in st.rules4
    ensures Parser.ParseArgs(id, CROSSED) == Ok(Parser.Op(CrossedRule(id), false, Parser.Both))
    ensures !Loadable(FinalAlloc(st, now, sort).batch)
  {
    CrossedParsed(id);
    LoadableIff(st, now, sort);
    var i :| 0 <= i < |st.rules4| && st.rules4[i] == CrossedRule(id);
    CrossedApart(id);
    assert !RuleApart(st.rules4[i]);
  }

  lemma CrossedApart(id: string)
    ensures !RuleApart(CrossedRule(id))
  {
    var r := CrossedRule(id);
    var ports := r.dst.ports;
    assert ports[1..] == [ports[1]] && [ports[1]][1..] == [];
    assert Selected([], true) == [];
    assert Selected([ports[1]], true) == [ports[1]];
    assert Selected(ports, true) == ports;
    assert Meet(ports[0], ports[1]);
    assert Variants(r)[0] == Tcp && !VariantApart(r, Tcp);
  }
}
