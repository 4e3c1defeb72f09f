/** The sets handed to the kernel, and when it can take them: the names that the compiler
    derives from the named sets must not meet. */
module SetBatch {
  import opened Bytes
  import opened Cidr
  import opened Intervals
  import opened Rules
  import opened Nft
  import opened Store
  import opened Compile
  import opened CompileSets

  /** Sets of one name have keys of one length. */
  ghost predicate OneTypePerName(batch: seq<SetObject>) {
    forall i, j :: 0 <= i < j < |batch| && batch[i].key == batch[j].key ==> batch[i].keyLen == batch[j].keyLen
  }

  ghost predicate OncePerName(batch: seq<SetObject>) {
    forall i, j :: 0 <= i < j < |batch| ==> batch[i].key != batch[j].key
  }

  // ---- bans and named sets -------------------------------------------------------------------

  function HalfObject(s: IpSet, v6: bool, sort: Sorting): SetObject {
    SetObject(NamedSet(SetText(s.name, v6)), KeyLen(v6), AddressSet(s.elements, KeyLen(v6), sort))
  }

  /** Two objects a set, in order. */
  function NamedObjects(sets: seq<IpSet>, sort: Sorting): (b: seq<SetObject>)
    ensures |b| == 2 * |sets|
  {
    if sets == [] then [] else [HalfObject(sets[0], false, sort), HalfObject(sets[0], true, sort)] + NamedObjects(sets[1..], sort)
  }

  lemma {:induction false} NamedObjectAt(sets: seq<IpSet>, i: nat, sort: Sorting)
    requires i < |sets|
    ensures NamedObjects(sets, sort)[2 * i] == HalfObject(sets[i], false, sort)
    ensures NamedObjects(sets, sort)[2 * i + 1] == HalfObject(sets[i], true, sort)
  {
    if i > 0 {
      NamedObjectAt(sets[1..], i - 1, sort);
    }
  }

  lemma {:induction false} NamedBatch(sets: seq<IpSet>, a: Alloc, sort: Sorting)
    ensures NamedAlloc(sets, a, sort).batch == a.batch + NamedObjects(sets, sort)
  {
    if sets != [] {
      var b := WithNamed(sets[0], a, sort);
      NamedBatch(sets[1..], b, sort);
      assert b.batch == a.batch + [HalfObject(sets[0], false, sort), HalfObject(sets[0], true, sort)];
    }
  }

  function BanObjects(st: State, now: int, sort: Sorting): seq<SetObject> {
    var bans := ActiveBans(st.bans, now);
    [SetObject(ThreatBans(false), 4, AddressSet(bans, 4, sort)), SetObject(ThreatBans(true), 16, AddressSet(bans, 16, sort))]
  }

  lemma BaseBatch(st: State, now: int, sort: Sorting)
    ensures BaseAlloc(st, now, sort).batch == BanObjects(st, now, sort) + NamedObjects(st.sets, sort)
  {
    NamedBatch(st.sets, BanAlloc(st, now, sort), sort);
    assert BanAlloc(st, now, sort).batch == BanObjects(st, now, sort);
  }

  // ---- what the rules add -----------------------------------------------------------------------

  /** The sets behind the first m belong to rules. Each has a name of its own and is found
      under it; the ids handed out bound those of the anonymous sets. */
  ghost predicate RuleSets(a: Alloc, base: seq<SetObject>) {
    && base <= a.batch
    && (forall k :: |base| <= k < |a.batch| ==> OwnSet(a, a.batch[k]))
    && (forall i, j :: |base| <= i < j < |a.batch| ==> a.batch[i].key != a.batch[j].key)
  }

  ghost predicate OwnSet(a: Alloc, o: SetObject) {
    && (o.key.AnonSet? || o.key.LimitSet?)
    && (o.key.AnonSet? ==> o.key.id <= a.next)
    && o.key in a.sets && a.sets[o.key] == o.body
  }

  lemma CreatedOwn(a: Alloc, base: seq<SetObject>, key: SetKey, keyLen: nat, body: SetBody)
    requires RuleSets(a, base) && (key.AnonSet? || key.LimitSet?)
    requires key.AnonSet? ==> key.id == a.next + 1
    requires key.LimitSet? ==> key !in a.sets
    ensures RuleSets(Created(a, key, keyLen, body), base)
  {
    var b := Created(a, key, keyLen, body);
    forall k | |base| <= k < |a.batch| ensures b.batch[k].key != key && OwnSet(b, b.batch[k]) {
      assert OwnSet(a, a.batch[k]);
    }
  }

  lemma PortAllocOwn(ports: seq<PortRange>, tcp: bool, a: Alloc, base: seq<SetObject>)
    requires RuleSets(a, base)
    ensures RuleSets(PortAlloc(ports, tcp, a), base)
  {
    if |Selected(ports, tcp)| > 1 {
      CreatedOwn(a, base, AnonSet(a.next + 1), 2, PortSet(Selected(ports, tcp)));
    }
  }

  lemma VariantAllocOwn(r: Rule, proto: Proto, v6: bool, a: Alloc, base: seq<SetObject>)
    requires RuleSets(a, base)
    ensures RuleSets(VariantAlloc(r, proto, v6, a), base)
  {
    if TakesPorts(proto) {
      PortAllocOwn(r.src.ports, proto == Tcp, a, base);
      PortAllocOwn(r.dst.ports, proto == Tcp, PortAlloc(r.src.ports, proto == Tcp, a), base);
    }
    var b, key := MatchAlloc(r, proto, a), LimitSet(LimitText(r, v6));
    if r.action == Limit && key !in b.sets {
      CreatedOwn(b, base, key, LimitKeyLen(v6), SetBody([], false));
    }
  }

  lemma {:induction false} ListAllocOwn(rules: seq<Rule>, v6: bool, now: int, a: Alloc, base: seq<SetObject>)
    requires RuleSets(a, base)
    ensures RuleSets(ListAlloc(rules, v6, now, a), base)
  {
    if rules != [] {
      var r := rules[0];
      if r.Active(now) {
        var v := Variants(r);
        VariantAllocOwn(r, v[0], v6, a, base);
        if |v| == 2 {
          VariantAllocOwn(r, v[1], v6, VariantAlloc(r, v[0], v6, a), base);
        }
      }
      ListAllocOwn(rules[1..], v6, now, RuleAlloc(r, v6, now, a), base);
    }
  }

  lemma FinalOwn(st: State, now: int, sort: Sorting)
    ensures RuleSets(FinalAlloc(st, now, sort), BanObjects(st, now, sort) + NamedObjects(st.sets, sort))
  {
    var base := BanObjects(st, now, sort) + NamedObjects(st.sets, sort);
    var a := BaseAlloc(st, now, sort);
    BaseBatch(st, now, sort);
    ListAllocOwn(st.rules4, false, now, a, base);
    ListAllocOwn(st.rules6, true, now, ListAlloc(st.rules4, false, now, a), base);
  }

  // ---- one type per name -----------------------------------------------------------------------

  /** Where an object of the batch comes from. */
  datatype Origin = FromBans(v6: bool) | FromSet(i: nat, v6: bool) | FromRule

  ghost predicate Comes(st: State, now: int, sort: Sorting, k: nat, from: Origin)
    requires k < |FinalAlloc(st, now, sort).batch|
  {
    var o := FinalAlloc(st, now, sort).batch[k];
    match from
    case FromBans(v6) => k < 2 && o.key == ThreatBans(v6) && v6 == (k == 1) && o == BanObjects(st, now, sort)[k]
    case FromSet(i, v6) => i < |st.sets| && o == HalfObject(st.sets[i], v6, sort) && k == 2 + 2 * i + (if v6 then 1 else 0)
    case FromRule => 2 + 2 * |st.sets| <= k && (o.key.AnonSet? || o.key.LimitSet?)
  }

  lemma HalfInBatch(st: State, now: int, sort: Sorting, i: nat, v6: bool) returns (k: nat)
    requires i < |st.sets|
    ensures k == 2 + 2 * i + (if v6 then 1 else 0) && k < |FinalAlloc(st, now, sort).batch|
    ensures FinalAlloc(st, now, sort).batch[k] == HalfObject(st.sets[i], v6, sort)
  {
    FinalOwn(st, now, sort);
    NamedObjectAt(st.sets, i, sort);
    k := 2 + 2 * i + (if v6 then 1 else 0);
    var named := NamedObjects(st.sets, sort);
    assert (BanObjects(st, now, sort) + named)[k] == named[k - 2];
  }

  lemma BanInBatch(st: State, now: int, sort: Sorting, k: nat)
    requires k < 2
    ensures k < |FinalAlloc(st, now, sort).batch|
    ensures FinalAlloc(st, now, sort).batch[k] == BanObjects(st, now, sort)[k]
  {
    FinalOwn(st, now, sort);
    assert (BanObjects(st, now, sort) + NamedObjects(st.sets, sort))[k] == BanObjects(st, now, sort)[k];
  }

  lemma OriginOf(st: State, now: int, sort: Sorting, k: nat) returns (from: Origin)
    requires k < |FinalAlloc(st, now, sort).batch|
    ensures Comes(st, now, sort, k, from)
  {
    if k < 2 {
      BanInBatch(st, now, sort, k);
      from := FromBans(k == 1);
    } else if k < 2 + 2 * |st.sets| {
      var at := HalfInBatch(st, now, sort, (k - 2) / 2, k % 2 == 1);
      from := FromSet((k - 2) / 2, k % 2 == 1);
    } else {
      FinalOwn(st, now, sort);
      assert OwnSet(FinalAlloc(st, now, sort), FinalAlloc(st, now, sort).batch[k]);
      from := FromRule;
    }
  }

  lemma SameNameSameType(st: State, now: int, sort: Sorting, j: nat, k: nat)
    requires NoTwins(st.sets) && j < k < |FinalAlloc(st, now, sort).batch|
    requires FinalAlloc(st, now, sort).batch[j].key == FinalAlloc(st, now, sort).batch[k].key
    ensures FinalAlloc(st, now, sort).batch[j].keyLen == FinalAlloc(st, now, sort).batch[k].keyLen
  {
    var f := OriginOf(st, now, sort, j);
    var g := OriginOf(st, now, sort, k);
    FinalOwn(st, now, sort);
    assert f.FromSet? <==> g.FromSet?;
    assert !f.FromRule?;
  }

  /** The kernel gets every name with one key length exactly when no set name is another
      one with "6" appended. */
  lemma LoadsIff(st: State, now: int, sort: Sorting)
    ensures OneTypePerName(FinalAlloc(st, now, sort).batch) <==> NoTwins(st.sets)
  {
    var batch := FinalAlloc(st, now, sort).batch;
    if NoTwins(st.sets) {
      forall j, k | 0 <= j < k < |batch| && batch[j].key == batch[k].key
        ensures batch[j].keyLen == batch[k].keyLen
      {
        SameNameSameType(st, now, sort, j, k);
      }
    } else {
      var j, k := TwinsClash(st, now, sort);
    }
  }

  /** Twins put one name into the batch twice, for keys of different lengths. */
  lemma TwinsClash(st: State, now: int, sort: Sorting) returns (j: nat, k: nat)
    requires !NoTwins(st.sets)
    ensures var batch := FinalAlloc(st, now, sort).batch;
      && j < |batch| && k < |batch| && batch[j].key == batch[k].key
      && batch[j].keyLen == 16 && batch[k].keyLen == 4
  {
    var s, t :| 0 <= s < |st.sets| && 0 <= t < |st.sets| && st.sets[s].name + "6" == st.sets[t].name;
    j := HalfInBatch(st, now, sort, s, true);
    k := HalfInBatch(st, now, sort, t, false);
  }

  lemma DistinctKeys(st: State, now: int, sort: Sorting, j: nat, k: nat)
    requires NamesApart(st.sets) && j < k < |FinalAlloc(st, now, sort).batch|
    ensures FinalAlloc(st, now, sort).batch[j].key != FinalAlloc(st, now, sort).batch[k].key
  {
    var f := OriginOf(st, now, sort, j);
    var g := OriginOf(st, now, sort, k);
    FinalOwn(st, now, sort);
    if f.FromSet? && g.FromSet? && SetText(st.sets[f.i].name, f.v6) == SetText(st.sets[g.i].name, g.v6) {
      TextsApart(st.sets, f.i, g.i, f.v6, g.v6);
    }
  }

  lemma FoundByName(st: State, now: int, sort: Sorting, k: nat)
    requires NamesApart(st.sets) && k < |FinalAlloc(st, now, sort).batch|
    ensures var a := FinalAlloc(st, now, sort);
      a.batch[k].key in a.sets && a.sets[a.batch[k].key] == a.batch[k].body
  {
    var f := OriginOf(st, now, sort, k);
    match f
    case FromBans(v6) =>
      BanSetPresent(st, now, v6, sort);
    case FromSet(i, v6) =>
      NamedPresent(st.sets, i, v6, BanAlloc(st, now, sort), sort);
      FinalKeeps(st, now, NamedSet(SetText(st.sets[i].name, v6)), sort);
    case FromRule =>
      FinalOwn(st, now, sort);
      var a := FinalAlloc(st, now, sort);
      assert OwnSet(a, a.batch[k]);
  }

  /** With set names apart, every set is created once and a lookup by its name finds it. */
  lemma BatchByName(st: State, now: int, sort: Sorting)
    requires NamesApart(st.sets)
    ensures var a := FinalAlloc(st, now, sort);
      && OncePerName(a.batch)
      && forall k :: 0 <= k < |a.batch| ==> a.batch[k].key in a.sets && a.sets[a.batch[k].key] == a.batch[k].body
  {
    var a := FinalAlloc(st, now, sort);
    forall j, k | 0 <= j < k < |a.batch| ensures a.batch[j].key != a.batch[k].key {
      DistinctKeys(st, now, sort, j, k);
    }
    forall k | 0 <= k < |a.batch|
      ensures a.batch[k].key in a.sets && a.sets[a.batch[k].key] == a.batch[k].body
    {
      FoundByName(st, now, sort, k);
    }
  }
}
