/** What adding, inserting and deleting a rule does to the list, position by position. */
module RuleCommands {
  import opened Bytes
  import opened Rules
  import opened AddressText
  import opened Store
  import opened Merge
  import opened InPlace
  import opened ThreatBans
  import opened RuleEngine

  // ---- one rule -------------------------------------------------------------------------------------

  ghost predicate Stores(list: seq<Rule>, k: nat, nr: Rule) {
    k < |list| && SameTuple(list[k], nr)
  }

  ghost predicate StoresNone(list: seq<Rule>, nr: Rule) {
    forall i :: 0 <= i < |list| ==> !SameTuple(list[i], nr)
  }

  lemma FoundAt(list: seq<Rule>, k: nat, nr: Rule)
    requires TuplesUnique(list)
    ensures Stores(list, k, nr) ==> Find(list, nr) == Some(k)
    ensures StoresNone(list, nr) ==> Find(list, nr) == None
  {
    if k < |list| {
      OnlyMatch(list, nr, k);
    }
    if Find(list, nr).Some? {
      TupleEquivalence(nr, list[Find(list, nr).value], nr);
    }
  }

  /** An identity that is new goes to the end. One that is stored takes the new rule in its place,
      and nothing happens when action, log flag and comment are the stored ones. */
  lemma AddsRule(list: seq<Rule>, nr: Rule, k: nat)
    requires TuplesUnique(list)
    ensures StoresNone(list, nr) ==> Engine(list, nr, 0, false) == (list + [nr], Added)
    ensures Stores(list, k, nr) ==>
      Engine(list, nr, 0, false)
      == if list[k].action == nr.action && list[k].log == nr.log && list[k].comment == nr.comment
         then (list, SkipAdd) else (list[k := nr], Updated)
  {
    FoundAt(list, k, nr);
  }

  /** A delete takes out the rule of its identity when it names its action and log flag, and its
      comment if it names one. Any other delete finds nothing. */
  lemma DeletesRule(list: seq<Rule>, nr: Rule, k: nat)
    requires TuplesUnique(list)
    ensures StoresNone(list, nr) ==> Engine(list, nr, 0, true) == (list, NotFound)
    ensures Stores(list, k, nr) ==>
      Engine(list, nr, 0, true)
      == if list[k].action == nr.action && list[k].log == nr.log && (nr.comment == "" || list[k].comment == nr.comment)
         then (list[..k] + list[k + 1..], Deleted) else (list, NotFound)
  {
    FoundAt(list, k, nr);
  }

  ghost predicate NoProfiles(list: seq<Rule>) {
    forall i :: 0 <= i < |list| ==> list[i].dapp == "" && list[i].sapp == ""
  }

  /** Without profiles in the list an insert goes where it says, unless its identity is stored. */
  lemma InsertsRule(list: seq<Rule>, nr: Rule, pos: nat, k: nat)
    requires TuplesUnique(list) && NoProfiles(list) && 1 <= pos <= |list|
    ensures StoresNone(list, nr) ==> Engine(list, nr, pos, false) == (list[..pos - 1] + [nr] + list[pos - 1..], Inserted)
    ensures Stores(list, k, nr) ==> Engine(list, nr, pos, false) == (list, SkipInsert)
  {
    FoundAt(list, k, nr);
    assert !Splits(list, pos - 1, nr.v6);
  }

  /** Two neighbours with a profile, of one destination, source and profiles, are kept together. */
  predicate Together(a: Rule, b: Rule, v6: bool) {
    && (b.dapp != "" || b.sapp != "") && a.dapp == b.dapp && a.sapp == b.sapp
    && (if a.dst.setName != "" then "set " + a.dst.setName else IpText(a.dst.ip, v6))
       == (if b.dst.setName != "" then "set " + b.dst.setName else IpText(b.dst.ip, v6))
    && (if a.src.setName != "" then "set " + a.src.setName else IpText(a.src.ip, v6))
       == (if b.src.setName != "" then "set " + b.src.setName else IpText(b.src.ip, v6))
  }

  /** In any list an insert goes to the first place from its position on that is between no such
      neighbours; when there is none, the rule is handled as by an add. */
  lemma InsertsBetween(list: seq<Rule>, nr: Rule, pos: nat, s: nat)
    requires TuplesUnique(list) && StoresNone(list, nr) && 2 <= pos <= |list| && pos - 1 <= s <= |list|
    requires forall i :: pos - 1 <= i < s ==> Together(list[i - 1], list[i], nr.v6)
    requires s < |list| ==> !Together(list[s - 1], list[s], nr.v6)
    ensures Engine(list, nr, pos, false)
      == if s < |list| then (list[..s] + [nr] + list[s..], Inserted) else (list + [nr], Added)
  {
    FoundAt(list, 0, nr);
    SlotIs(list, pos - 1, s, nr.v6);
  }

  lemma SplitIs(list: seq<Rule>, i: nat, v6: bool)
    requires 0 < i < |list|
    ensures Splits(list, i, v6) <==> Together(list[i - 1], list[i], v6)
  {
  }

  lemma SlotIs(list: seq<Rule>, from: nat, s: nat, v6: bool)
    requires 0 < from <= s <= |list|
    requires forall i :: from <= i < s ==> Together(list[i - 1], list[i], v6)
    requires s < |list| ==> !Together(list[s - 1], list[s], v6)
    ensures Slot(list, from, v6) == if s < |list| then Some(s) else None
  {
    var slot := Slot(list, from, v6);
    if s < |list| {
      SplitIs(list, s, v6);
    }
    if slot.Some? {
      SplitIs(list, slot.value, v6);
    }
  }

  lemma InsertsFirst(list: seq<Rule>, nr: Rule)
    requires TuplesUnique(list) && StoresNone(list, nr) && list != []
    ensures Engine(list, nr, 1, false) == ([nr] + list, Inserted)
  {
    FoundAt(list, 0, nr);
    assert list[..0] + [nr] + list[0..] == [nr] + list;
  }

  /** Neither the action nor the log flag, comment, id, switch or expiry belongs to the identity. */
  lemma IdentityIgnores(r: Rule, o: Rule)
    ensures SameTuple(r, r.(action := o.action, log := o.log, comment := o.comment, id := o.id,
                            disabled := o.disabled, expiresAt := o.expiresAt))
  {
  }

  /** A routed rule and an input rule are different, and so are two protocols, families, interfaces,
      profiles, sets or addresses. */
  lemma IdentityIncludes(r: Rule, o: Rule)
    requires SameTuple(r, o)
    ensures (r.dir == Routed <==> o.dir == Routed) && (r.dir != Routed ==> r.dir == o.dir)
    ensures r.dir == Routed ==> r.routeDir == o.routeDir
    ensures r.proto == o.proto && r.icmpType == o.icmpType && r.v6 == o.v6
    ensures r.ifaceIn == o.ifaceIn && r.ifaceOut == o.ifaceOut && r.dapp == o.dapp && r.sapp == o.sapp
    ensures r.src.ip == o.src.ip && r.dst.ip == o.dst.ip && r.src.setName == o.src.setName && r.dst.setName == o.dst.setName
    ensures |r.src.ports| == |o.src.ports| && |r.dst.ports| == |o.dst.ports|
    ensures forall i :: 0 <= i < |r.src.ports| ==> r.src.ports[i].lo == o.src.ports[i].lo && r.src.ports[i].hi == o.src.ports[i].hi
    ensures forall i :: 0 <= i < |r.dst.ports| ==> r.dst.ports[i].lo == o.dst.ports[i].lo && r.dst.ports[i].hi == o.dst.ports[i].hi
  {
  }

  // ---- one imported rule -------------------------------------------------------------------------------

  predicate Taken(list: seq<Rule>, id: string) {
    exists i :: 0 <= i < |list| && list[i].id == id
  }

  /** An imported rule of a new identity goes to the end, under an id of its own when its id is
      empty or taken. One that is stored takes the new fields and keeps id, switch and expiry; it
      counts as a change only if action, log flag or comment are new. */
  lemma MergesRule(list: seq<Rule>, r: Rule, newId: string, k: nat)
    requires TuplesUnique(list)
    ensures StoresNone(list, r) ==>
      Changes(list, r) && MergeOne(list, r, newId) == list + [r.(id := if r.id == "" || Taken(list, r.id) then newId else r.id)]
    ensures Stores(list, k, r) ==>
      && (Changes(list, r) <==> list[k].action != r.action || list[k].log != r.log || list[k].comment != r.comment)
      && |MergeOne(list, r, newId)| == |list|
      && (forall i :: 0 <= i < |list| && i != k ==> MergeOne(list, r, newId)[i] == list[i])
      && SameTuple(MergeOne(list, r, newId)[k], r)
      && var m := MergeOne(list, r, newId)[k];
         && m.action == r.action && m.log == r.log && m.comment == r.comment
         && m.id == list[k].id && m.disabled == list[k].disabled && m.expiresAt == list[k].expiresAt
  {
    FoundAt(list, k, r);
    if Stores(list, k, r) {
      TupleEquivalence(list[k], r, r);
    }
  }

  // ---- one family's half ---------------------------------------------------------------------------------

  /** A position outside the list, or one on a delete, is the only error. */
  lemma HalfRefuses(list: seq<Rule>, nr: Rule, pos: int, remove: bool)
    ensures Half(list, nr, pos, remove).Err? <==> pos < 0 || pos > |list| || (pos >= 1 && remove)
  {
  }

  /** Without profiles the half is the command itself. */
  lemma HalfIsEngine(list: seq<Rule>, nr: Rule, pos: nat, remove: bool)
    requires pos <= |list| && (remove ==> pos == 0 && nr.dapp == "" && nr.sapp == "")
    ensures Half(list, nr, pos, remove) == Ok(Engine(list, nr, pos, remove))
  {
  }

  /** An app delete whose text no stored rule has finds nothing. When the first rule of its text has
      another action or log flag, it finds nothing either, whatever the others are. */
  lemma AppDeleteMisses(list: seq<Rule>, nr: Rule, k: nat)
    requires TuplesUnique(list) && (nr.dapp != "" || nr.sapp != "")
    requires k <= |list| && forall i :: 0 <= i < k ==> AppTupleOf(list[i]) != AppTupleOf(nr)
    requires k < |list| ==>
      AppTupleOf(list[k]) == AppTupleOf(nr) && (list[k].action != nr.action || list[k].log != nr.log)
    ensures Half(list, nr, 0, true) == Ok((list, NotFound))
  {
    var t := AppTupleOf(nr);
    if k == |list| {
      FilterNone(list, InGroup(t));
    } else {
      RemoveFirst(list, k, t);
      var target := list[k].(action := nr.action, log := nr.log);
      assert Stamped(Filter(list, InGroup(t)), nr)[0] == target;
      IdentityIgnores(list[k], target);
      DeletesRule(list, target, k);
    }
  }

  // ---- sweeping ----------------------------------------------------------------------------------------------

  /** What a sweep keeps: rules without expiry time or before it, and bans before theirs. */
  lemma SweptMembers(st: State, now: int, r: Rule, b: Ban)
    ensures var out := Swept(st, now);
      && (r in out.rules4 <==> r in st.rules4 && (r.expiresAt == 0 || now < r.expiresAt))
      && (r in out.rules6 <==> r in st.rules6 && (r.expiresAt == 0 || now < r.expiresAt))
      && (b in out.bans <==> b in st.bans && now < b.expiresAt)
      && out == st.(rules4 := out.rules4, rules6 := out.rules6, bans := out.bans)
  {
    FilterMembers(st.rules4, Unexpired(now));
    FilterMembers(st.rules6, Unexpired(now));
    FilterMembers(st.bans, KeepUnexpired(now));
  }
}
