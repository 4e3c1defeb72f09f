/** What the compiled ban and named sets mean, and the precedence of bans. */
module CompileSets {
  import opened Bits
  import opened Bytes
  import opened Cidr
  import opened Intervals
  import opened TieOrder
  import opened Rules
  import opened Nft
  import opened Store
  import opened Compile
  import opened CompileMatch
  import opened CompileUser
  import opened AddressSets
  import opened CompileFixed
  import opened CompileTheorems

  // ---- which sets end up in the program -------------------------------------------------

  lemma {:induction false} NamedKeeps(sets: seq<IpSet>, a: Alloc, key: SetKey, sort: Sorting)
    requires key in a.sets && !key.NamedSet?
    ensures key in NamedAlloc(sets, a, sort).sets && NamedAlloc(sets, a, sort).sets[key] == a.sets[key]
  {
    if sets != [] {
      NamedKeeps(sets[1..], WithNamed(sets[0], a, sort), key, sort);
    }
  }

  lemma FinalKeeps(st: State, now: int, key: SetKey, sort: Sorting)
    requires key in BaseAlloc(st, now, sort).sets
    ensures key in FinalAlloc(st, now, sort).sets && FinalAlloc(st, now, sort).sets[key] == BaseAlloc(st, now, sort).sets[key]
  {
    var a := BaseAlloc(st, now, sort);
    NamedIds(st.sets, BanAlloc(st, now, sort), sort);
    ListAllocGrows(st.rules4, false, now, a);
    ListAllocGrows(st.rules6, true, now, ListAlloc(st.rules4, false, now, a));
  }

  lemma BanSetPresent(st: State, now: int, v6: bool, sort: Sorting)
    ensures var sets := FinalAlloc(st, now, sort).sets;
      && ThreatBans(v6) in sets
      && sets[ThreatBans(v6)] == AddressSet(ActiveBans(st.bans, now), if v6 then 16 else 4, sort)
  {
    NamedKeeps(st.sets, BanAlloc(st, now, sort), ThreatBans(v6), sort);
    FinalKeeps(st, now, ThreatBans(v6), sort);
  }

  // ---- bans -----------------------------------------------------------------------------------

  /** The source lies in an unexpired ban. */
  ghost predicate SourceBanned(bans: seq<Ban>, now: int, src: seq<Byte>) {
    SomeElementHas(ActiveBans(bans, now), src)
  }

  /** The compiled ban sets have a source iff merging kept it, and never another source. */
  lemma BanSetsExact(st: State, now: int, p: Packet, sort: Sorting)
    requires p.Valid() && IsSorting(sort)
    ensures Banned(FinalAlloc(st, now, sort).sets, p)
      <==> Kept(sort(FamilyIntervals(ActiveBans(st.bans, now), |p.src|)), Val(p.src))
    ensures Banned(FinalAlloc(st, now, sort).sets, p) ==> SourceBanned(st.bans, now, p.src)
    ensures MergesExactly(ActiveBans(st.bans, now), |p.src|, sort) ==>
      (Banned(FinalAlloc(st, now, sort).sets, p) <==> SourceBanned(st.bans, now, p.src))
  {
    BanSetPresent(st, now, p.v6, sort);
    AddressSetExact(ActiveBans(st.bans, now), p.src, sort);
    if MergesExactly(ActiveBans(st.bans, now), |p.src|, sort) {
      ExactMeaning(ActiveBans(st.bans, now), p.src, sort);
    }
  }

  lemma BannedReference(st: State, etc: Defaults, now: int, fixed: FixedRules, d: Direction, env: Env, sets: SetFn)
    requires ValidRules(st.rules4) && ValidRules(st.rules6) && d != Out && !ViaLoopback(d, env.pkt)
    ensures Reference(st, etc, now, fixed, d, env, sets, true) == Drop
  {
  }

  ghost predicate DropsPacket(st: State, etc: Defaults, now: int, fixed: FixedRules, d: Direction, env: Env, sort: Sorting)
    requires env.pkt.Valid()
  {
    var c := CompileState(st, etc, now, fixed, sort);
    c.Ok? ==> Traverse(env, c.value, d, BasePolicy(st, etc, d), 3) == Some(Drop)
  }

  /** A source in the compiled ban sets is dropped whatever its conntrack state and the user rules. */
  lemma InBanSetDropped(st: State, etc: Defaults, now: int, fixed: FixedRules, d: Direction, env: Env, sort: Sorting)
    requires st.Valid() && env.pkt.Valid() && d != Out && !ViaLoopback(d, env.pkt)
    requires Banned(FinalAlloc(st, now, sort).sets, env.pkt)
    ensures DropsPacket(st, etc, now, fixed, d, env, sort)
  {
    if CompileState(st, etc, now, fixed, sort).Ok? {
      VerdictOf(st, etc, now, fixed, d, env, CompileState(st, etc, now, fixed, sort).value, sort);
      BannedReference(st, etc, now, fixed, d, env, CompiledSets(FinalAlloc(st, now, sort).sets));
    }
  }

  /** A packet of one family from a banned source, at a hook and interface where bans apply. */
  ghost predicate BannedArrival(bans: seq<Ban>, now: int, v6: bool, d: Direction, p: Packet) {
    p.Valid() && p.v6 == v6 && d != Out && !ViaLoopback(d, p) && SourceBanned(bans, now, p.src)
  }

  /** Every valid state with these bans drops every banned source of one family, on forward
      and on input other than loopback. */
  ghost predicate BansHold(bans: seq<Ban>, now: int, v6: bool, sort: Sorting) {
    forall st: State, etc, fixed, d, env: Env ::
      st.Valid() && st.bans == bans && BannedArrival(bans, now, v6, d, env.pkt)
      ==> DropsPacket(st, etc, now, fixed, d, env, sort)
  }

  ghost predicate ValidBans(bans: seq<Ban>) {
    forall i :: 0 <= i < |bans| ==> bans[i].address.Valid()
  }

  function KeyLen(v6: bool): nat {
    if v6 then 16 else 4
  }

  /** Bans take precedence exactly when their intervals pass the test of the merge, or when a
      bad address keeps every state with them from being compiled. */
  lemma BanPrecedence(bans: seq<Ban>, now: int, v6: bool, sort: Sorting)
    requires ValidBans(bans) && IsSorting(sort)
    ensures BansHold(bans, now, v6, sort)
      <==> AddressesFail(ActiveBans(bans, now)) || MergesExactly(ActiveBans(bans, now), KeyLen(v6), sort)
  {
    if AddressesFail(ActiveBans(bans, now)) {
      UncompiledBansHold(bans, now, v6, sort);
    } else if MergesExactly(ActiveBans(bans, now), KeyLen(v6), sort) {
      ExactBansHold(bans, now, v6, sort);
    } else {
      LostBanAccepted(bans, now, v6, sort);
    }
  }

  lemma UncompiledBansHold(bans: seq<Ban>, now: int, v6: bool, sort: Sorting)
    requires AddressesFail(ActiveBans(bans, now))
    ensures BansHold(bans, now, v6, sort)
  {
    forall st: State, etc, fixed, d, env: Env |
      st.Valid() && st.bans == bans && BannedArrival(bans, now, v6, d, env.pkt)
      ensures DropsPacket(st, etc, now, fixed, d, env, sort)
    {
      if st.panic {
        PanicVerdict(st, etc, now, fixed, d, env, CompileState(st, etc, now, fixed, sort).value);
      }
    }
  }

  lemma ExactBansHold(bans: seq<Ban>, now: int, v6: bool, sort: Sorting)
    requires IsSorting(sort) && MergesExactly(ActiveBans(bans, now), KeyLen(v6), sort)
    ensures BansHold(bans, now, v6, sort)
  {
    forall st: State, etc, fixed, d, env: Env |
      st.Valid() && st.bans == bans && BannedArrival(bans, now, v6, d, env.pkt)
      ensures DropsPacket(st, etc, now, fixed, d, env, sort)
    {
      BanSetsExact(st, now, env.pkt, sort);
      InBanSetDropped(st, etc, now, fixed, d, env, sort);
    }
  }

  /** Whatever the library does with equal starts, bans take precedence: exactly when the
      intervals in start order pass the test that looks at all of the equal ones. */
  lemma BanPrecedenceAnyOrder(bans: seq<Ban>, now: int, v6: bool)
    requires ValidBans(bans)
    ensures (forall sort: Sorting :: IsSorting(sort) ==> BansHold(bans, now, v6, sort))
      <==> AddressesFail(ActiveBans(bans, now)) || MergesInAnyOrder(ActiveBans(bans, now), KeyLen(v6))
  {
    AnyOrderExact(ActiveBans(bans, now), KeyLen(v6));
    forall sort: Sorting | IsSorting(sort)
      ensures BansHold(bans, now, v6, sort)
        <==> AddressesFail(ActiveBans(bans, now)) || MergesExactly(ActiveBans(bans, now), KeyLen(v6), sort)
    {
      BanPrecedence(bans, now, v6, sort);
    }
  }

  // ---- a banned source that gets through ---------------------------------------------------------

  /** No rules and an allow policy, beside the given bans. */
  function OpenState(bans: seq<Ban>): State {
    State([], [], Policies(PolicyAllow, PolicyAllow, PolicyAllow), Low, true, false, [], bans)
  }

  function PlainPacket(src: seq<Byte>): Packet {
    Packet(|src| == 16, [101], [], 6, src, src, 1000, 22, 0, CtNew, false, RTN_LOCAL)
  }

  const NO_DEFAULTS: Defaults := Defaults(None, None, None, None)
  const NO_FIXED: FixedRules := FixedRules([], [], [], [], [], [])

  function PlainEnv(src: seq<Byte>): Env {
    Env(PlainPacket(src), i => true, k => false, i => false)
  }

  lemma OpenReference(bans: seq<Ban>, now: int, env: Env, sets: SetFn, src: seq<Byte>)
    requires env.pkt == PlainPacket(src) && env.pkt.Valid()
    ensures Reference(OpenState(bans), NO_DEFAULTS, now, NO_FIXED, In, env, sets, false) == Accept
  {
    assert [101][0] == 101 && LOOPBACK[0] == 108;
    assert BeforeVerdict(In, NO_FIXED, env, false) == None;
  }

  lemma OpenCompiles(bans: seq<Ban>, now: int, sort: Sorting)
    requires ValidBans(bans) && !AddressesFail(ActiveBans(bans, now))
    ensures OpenState(bans).Valid() && CompileState(OpenState(bans), NO_DEFAULTS, now, NO_FIXED, sort).Ok?
  {
  }

  /** An address that the merged ban set lost passes an otherwise open state. */
  lemma LostSourceAccepted(bans: seq<Ban>, now: int, src: seq<Byte>, env: Env, sort: Sorting)
    requires ValidBans(bans) && !AddressesFail(ActiveBans(bans, now)) && (|src| == 4 || |src| == 16)
    requires !SetHas(AddressSet(ActiveBans(bans, now), |src|, sort), src)
    requires env.pkt == PlainPacket(src)
    ensures var c := CompileState(OpenState(bans), NO_DEFAULTS, now, NO_FIXED, sort);
      c.Ok? && Traverse(env, c.value, In, BasePolicy(OpenState(bans), NO_DEFAULTS, In), 3) == Some(Accept)
  {
    var st := OpenState(bans);
    OpenCompiles(bans, now, sort);
    BanSetPresent(st, now, |src| == 16, sort);
    OpenReference(bans, now, env, CompiledSets(FinalAlloc(st, now, sort).sets), src);
    VerdictOf(st, NO_DEFAULTS, now, NO_FIXED, In, env, CompileState(st, NO_DEFAULTS, now, NO_FIXED, sort).value, sort);
  }

  /** Bans that fail the test let one of their addresses through in some state. */
  lemma LostBanAccepted(bans: seq<Ban>, now: int, v6: bool, sort: Sorting)
    requires ValidBans(bans) && IsSorting(sort) && !AddressesFail(ActiveBans(bans, now))
    requires !MergesExactly(ActiveBans(bans, now), KeyLen(v6), sort)
    ensures !BansHold(bans, now, v6, sort)
  {
    var src := LostAddress(ActiveBans(bans, now), KeyLen(v6), sort);
    var env := PlainEnv(src);
    LostSourceAccepted(bans, now, src, env, sort);
    OpenCompiles(bans, now, sort);
    PlainArrival(bans, now, src);
    assert !DropsPacket(OpenState(bans), NO_DEFAULTS, now, NO_FIXED, In, env, sort);
  }

  lemma PlainArrival(bans: seq<Ban>, now: int, src: seq<Byte>)
    requires |src| == 4 || |src| == 16
    requires SourceBanned(bans, now, src)
    ensures BannedArrival(bans, now, |src| == 16, In, PlainPacket(src))
  {
    assert [101][0] == 101 && LOOPBACK[0] == 108;
  }

  function LossyBanList(now: int): seq<Ban> {
    [Ban(Net(HALF, 1), "crowdsec", "", 1, now + 1), Ban(Net(HOST, 32), "crowdsec", "", 2, now + 1)]
  }

  lemma LossyBans(now: int)
    ensures ActiveBans(LossyBanList(now), now) == [Net(HALF, 1), Net(HOST, 32)]
    ensures ValidBans(LossyBanList(now)) && !AddressesFail(ActiveBans(LossyBanList(now), now))
  {
    var bans := LossyBanList(now);
    HalfSpace();
    assert bans[1..] == [bans[1]] && [bans[1]][1..] == [];
    assert ActiveBans([], now) == [];
    assert ActiveBans([bans[1]], now) == [Net(HOST, 32)];
    assert IsAddress(Net(HALF, 1)) && IsAddress(Net(HOST, 32));
  }

  /** With bans on 128.0.0.0/1 and 200.0.0.1 and an allow policy, a packet from 250.0.0.1,
      a banned source, is accepted. */
  lemma BannedSourceAccepted(now: int, env: Env, sort: Sorting)
    requires IsSorting(sort) && env.pkt == PlainPacket(LOST)
    ensures var st := OpenState(LossyBanList(now));
      var c := CompileState(st, NO_DEFAULTS, now, NO_FIXED, sort);
      && SourceBanned(st.bans, now, env.pkt.src)
      && c.Ok? && Traverse(env, c.value, In, BasePolicy(st, NO_DEFAULTS, In), 3) == Some(Accept)
  {
    LossyBans(now);
    AddressSetLoses(sort);
    LostSourceAccepted(LossyBanList(now), now, LOST, env, sort);
  }

  // ---- bans that the sort decides about -------------------------------------------------------------

  const TIED: seq<Byte> := [192, 0, 0, 0]

  function TiedBanList(now: int): seq<Ban> {
    [Ban(Net(TIED, 8), "crowdsec", "", 1, now + 1), Ban(Net(TIED, 2), "crowdsec", "", 2, now + 1)]
  }

  lemma TiedSpace()
    ensures Val(TIED) == 0xC000_0000 && Canonical(TIED, 8) && Canonical(TIED, 2)
    ensures BlockEnd(TIED, 8) == At(0xC100_0000) && BlockEnd(TIED, 2) == Top
  {
    FourBytes(TIED);
    Pow31();
    assert Pow2(8) == 256;
    Pow2Add(8, 16);
    Pow2Add(24, 6);
    Pow2Add(8, 8);
    assert Pow2(6) == 64;
    Multiple(192, 24, 24);
    Multiple(3, 30, 30);
  }

  lemma TiedBans(now: int)
    ensures ActiveBans(TiedBanList(now), now) == [Net(TIED, 8), Net(TIED, 2)]
    ensures ValidBans(TiedBanList(now)) && !AddressesFail(ActiveBans(TiedBanList(now), now))
  {
    var bans := TiedBanList(now);
    TiedSpace();
    assert bans[1..] == [bans[1]] && [bans[1]][1..] == [];
    assert ActiveBans([], now) == [];
    assert ActiveBans([bans[1]], now) == [Net(TIED, 2)];
    assert IsAddress(Net(TIED, 8)) && IsAddress(Net(TIED, 2));
  }

  lemma TiedIntervals()
    ensures FamilyIntervals([Net(TIED, 8), Net(TIED, 2)], 4) == [Interval(0xC000_0000, At(0xC100_0000)), Interval(0xC000_0000, Top)]
  {
    var es := [Net(TIED, 8), Net(TIED, 2)];
    TiedSpace();
    assert es[1..] == [es[1]] && [es[1]][1..] == [];
    assert IsAddress(es[0]) && IsAddress(es[1]);
    assert FamilyIntervals([], 4) == [];
    assert FamilyIntervals([es[1]], 4) == [Interval(0xC000_0000, Top)];
  }

  lemma SortTied(a: Interval, b: Interval)
    requires a.start == b.start
    ensures SortByStart([a, b]) == [a, b]
  {
    assert [a, b][..1] == [a] && [a][..0] == [];
    assert SortByStart([a]) == [a];
  }

  /** Bans on 192.0.0.0/8 and 192.0.0.0/2: under insertion sort they take precedence, under
      another sort that the library may be they do not. */
  lemma TiedBansDepend(now: int) returns (other: Sorting)
    ensures IsSorting(s => SortByStart(s)) && BansHold(TiedBanList(now), now, false, s => SortByStart(s))
    ensures IsSorting(other) && !BansHold(TiedBanList(now), now, false, other)
  {
    var bans, es := TiedBanList(now), [Net(TIED, 8), Net(TIED, 2)];
    var a, b := Interval(0xC000_0000, At(0xC100_0000)), Interval(0xC000_0000, Top);
    TiedBans(now);
    TiedIntervals();
    SortTied(a, b);
    InsertionSorts();
    assert MergesExactly(es, 4, s => SortByStart(s));
    BanPrecedence(bans, now, false, s => SortByStart(s));
    OneStart(a, b);
    other := SpoilingSort(es, 4);
    BanPrecedence(bans, now, false, other);
  }

  // ---- named sets ---------------------------------------------------------------------------------

  predicate DistinctNames(sets: seq<IpSet>) {
    forall i, j :: 0 <= i < j < |sets| ==> sets[i].name != sets[j].name
  }

  /** No name is another one with the "6" of the IPv6 half appended. */
  predicate NoTwins(sets: seq<IpSet>) {
    forall i, j :: 0 <= i < |sets| && 0 <= j < |sets| ==> sets[i].name + "6" != sets[j].name
  }

  /** The kernel names of two sets never coincide. */
  predicate NamesApart(sets: seq<IpSet>) {
    DistinctNames(sets) && NoTwins(sets)
  }

  lemma TextsApart(sets: seq<IpSet>, i: nat, j: nat, v: bool, w: bool)
    requires NamesApart(sets) && i < |sets| && j < |sets|
    requires SetText(sets[i].name, v) == SetText(sets[j].name, w)
    ensures i == j && v == w
  {
    var a, b := sets[i].name, sets[j].name;
    assert |a + "6"| == |a| + 1 && |b + "6"| == |b| + 1;
    if v && w {
      assert (a + "6")[..|a|] == a && (b + "6")[..|b|] == b;
    }
  }

  lemma ApartTail(sets: seq<IpSet>)
    requires NamesApart(sets) && sets != []
    ensures NamesApart(sets[1..])
  {
    assert forall i :: 0 <= i < |sets[1..]| ==> sets[1..][i] == sets[i + 1];
  }

  lemma {:induction false} NamedPresent(sets: seq<IpSet>, i: nat, v6: bool, a: Alloc, sort: Sorting)
    requires i < |sets| && NamesApart(sets)
    ensures var key := NamedSet(SetText(sets[i].name, v6));
      && key in NamedAlloc(sets, a, sort).sets
      && NamedAlloc(sets, a, sort).sets[key] == AddressSet(sets[i].elements, KeyLen(v6), sort)
  {
    var b := WithNamed(sets[0], a, sort);
    assert NamedAlloc(sets, a, sort) == NamedAlloc(sets[1..], b, sort);
    if i == 0 {
      var text := SetText(sets[0].name, v6);
      forall j, w | 0 <= j < |sets[1..]| ensures SetText(sets[1..][j].name, w) != text {
        if SetText(sets[j + 1].name, w) == text {
          TextsApart(sets, j + 1, 0, w, v6);
        }
      }
      TextsDiffer(sets[0].name);
      NamedUntouched(sets[1..], b, text, sort);
    } else {
      ApartTail(sets);
      NamedPresent(sets[1..], i - 1, v6, b, sort);
    }
  }

  lemma TextsDiffer(name: string)
    ensures SetText(name, false) != SetText(name, true)
  {
    assert |SetText(name, true)| == |name| + 1;
  }

  lemma {:induction false} NamedUntouched(sets: seq<IpSet>, a: Alloc, text: string, sort: Sorting)
    requires NamedSet(text) in a.sets
    requires forall j, w :: 0 <= j < |sets| ==> SetText(sets[j].name, w) != text
    ensures NamedSet(text) in NamedAlloc(sets, a, sort).sets
      && NamedAlloc(sets, a, sort).sets[NamedSet(text)] == a.sets[NamedSet(text)]
  {
    if sets != [] {
      assert SetText(sets[0].name, false) != text && SetText(sets[0].name, true) != text;
      assert forall j :: 0 <= j < |sets[1..]| ==> sets[1..][j] == sets[j + 1];
      NamedUntouched(sets[1..], WithNamed(sets[0], a, sort), text, sort);
    }
  }

  lemma NamedSetCompiled(st: State, now: int, i: nat, addr: seq<Byte>, sort: Sorting)
    requires i < |st.sets| && NamesApart(st.sets) && (|addr| == 4 || |addr| == 16)
    ensures CompiledSets(FinalAlloc(st, now, sort).sets)(st.sets[i].name, addr)
      <==> SetHas(AddressSet(st.sets[i].elements, |addr|, sort), addr)
  {
    var key := NamedSet(SetText(st.sets[i].name, |addr| == 16));
    NamedPresent(st.sets, i, |addr| == 16, BanAlloc(st, now, sort), sort);
    FinalKeeps(st, now, key, sort);
  }

  /** A rule's set reference means the elements of that set and family, for every address,
      exactly when they merge exactly. */
  lemma NamedSetMeaning(st: State, now: int, i: nat, v6: bool, sort: Sorting)
    requires i < |st.sets| && NamesApart(st.sets) && IsSorting(sort)
    ensures var es, n := st.sets[i].elements, KeyLen(v6);
      (forall addr: seq<Byte> :: |addr| == n ==>
        (CompiledSets(FinalAlloc(st, now, sort).sets)(st.sets[i].name, addr) <==> SomeElementHas(es, addr)))
      <==> MergesExactly(es, n, sort)
  {
    var es, n := st.sets[i].elements, KeyLen(v6);
    forall addr: seq<Byte> | |addr| == n
      ensures CompiledSets(FinalAlloc(st, now, sort).sets)(st.sets[i].name, addr) <==> SetHas(AddressSet(es, n, sort), addr)
    {
      NamedSetCompiled(st, now, i, addr, sort);
    }
    AddressSetMeaning(es, n, sort);
  }
}
