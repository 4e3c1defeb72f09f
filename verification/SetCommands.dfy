/** The commands on named sets and the merge of imported ones: which of them keep the kernel
    names of the sets apart. */
module SetCommands {
  import opened Bytes
  import opened Cidr
  import opened Rules
  import opened Nft
  import opened Store
  import opened InPlace
  import opened Intervals
  import opened Compile
  import opened AddressSets
  import opened CompileSets
  import opened SetBatch

  predicate NameChar(c: char) {
    'a' <= c <= 'z' || 'A' <= c <= 'Z' || '0' <= c <= '9' || c == '_' || c == '-'
  }

  predicate ValidSetName(name: string) {
    name != "" && forall i :: 0 <= i < |name| ==> NameChar(name[i])
  }

  predicate Twins(a: string, b: string) {
    a + "6" == b || b + "6" == a
  }

  /** Index of the set with that name, or the length. */
  function SetIndex(sets: seq<IpSet>, name: string): (i: nat)
    ensures i <= |sets|
    ensures i < |sets| ==> sets[i].name == name
    ensures forall j :: 0 <= j < i ==> sets[j].name != name
  {
    if sets == [] || sets[0].name == name then 0 else 1 + SetIndex(sets[1..], name)
  }

  lemma {:induction false} FirstIndex(sets: seq<IpSet>, name: string, i: nat)
    requires i <= |sets| && (i < |sets| ==> sets[i].name == name)
    requires forall j :: 0 <= j < i ==> sets[j].name != name
    ensures SetIndex(sets, name) == i
  {
  }

  method FindSet(sets: seq<IpSet>, name: string) returns (i: nat)
    ensures i == SetIndex(sets, name)
  {
    i := 0;
    while i < |sets| && sets[i].name != name
      invariant i <= |sets| && forall j :: 0 <= j < i ==> sets[j].name != name
    {
      i := i + 1;
    }
    FirstIndex(sets, name, i);
  }

  // ---- create ---------------------------------------------------------------------------------

  predicate Collides(sets: seq<IpSet>, name: string) {
    exists i :: 0 <= i < |sets| && Twins(name, sets[i].name)
  }

  function CreateSet(st: State, name: string): Result<State> {
    if !ValidSetName(name) || SetIndex(st.sets, name) < |st.sets| || Collides(st.sets, name) then Err
    else Ok(st.(sets := st.sets + [IpSet(name, [])]))
  }

  method SetCreate(st: State, name: string) returns (r: Result<State>)
    ensures r == CreateSet(st, name)
  {
    if !ValidSetName(name) {
      return Err;
    }
    var at := FindSet(st.sets, name);
    if at < |st.sets| {
      return Err;
    }
    for i := 0 to |st.sets|
      invariant forall j :: 0 <= j < i ==> !Twins(name, st.sets[j].name)
    {
      if Twins(name, st.sets[i].name) {
        return Err;
      }
    }
    r := Ok(st.(sets := st.sets + [IpSet(name, [])]));
  }

  /** The guard refuses exactly the names that would bring two kernel names together. */
  lemma CreateExact(st: State, name: string)
    requires NamesApart(st.sets)
    ensures CreateSet(st, name).Ok? <==> ValidSetName(name) && NamesApart(st.sets + [IpSet(name, [])])
  {
    var sets := st.sets + [IpSet(name, [])];
    assert |name + "6"| == |name| + 1;
    if NamesApart(sets) {
      forall i | 0 <= i < |st.sets| ensures st.sets[i].name != name && !Twins(name, st.sets[i].name) {
        assert sets[i] == st.sets[i] && sets[|st.sets|].name == name;
      }
    }
  }

  /** A digit, a letter of either case, a hyphen or an underscore, by its code. */
  predicate GoodCode(n: int) {
    48 <= n <= 57 || 65 <= n <= 90 || 97 <= n <= 122 || n == 45 || n == 95
  }

  /** Without sets, a name is good if it has such characters only and at least one. */
  lemma GoodNames(st: State, name: string)
    requires st.sets == []
    ensures CreateSet(st, name).Ok? <==> |name| >= 1 && forall i :: 0 <= i < |name| ==> GoodCode(name[i] as int)
  {
  }

  // ---- add ------------------------------------------------------------------------------------

  predicate AllAddresses(es: seq<Ip>) {
    forall i :: 0 <= i < |es| ==> IsAddress(es[i])
  }

  /** Appends each piece that is not there yet. */
  function AddAll(had: seq<Ip>, es: seq<Ip>): seq<Ip>
    decreases |es|
  {
    if es == [] then had else AddAll(if es[0] in had then had else had + [es[0]], es[1..])
  }

  function AddToSet(st: State, name: string, es: seq<Ip>): Result<State> {
    var i := SetIndex(st.sets, name);
    if !AllAddresses(es) || es == [] || i == |st.sets| then Err
    else Ok(st.(sets := st.sets[i := st.sets[i].(elements := AddAll(st.sets[i].elements, es))]))
  }

  method SetAdd(st: State, name: string, es: seq<Ip>) returns (r: Result<State>)
    ensures r == AddToSet(st, name, es)
  {
    var good := CheckPieces(es);
    if !good || |es| == 0 {
      return Err;
    }
    var at := FindSet(st.sets, name);
    if at == |st.sets| {
      return Err;
    }
    var elements := st.sets[at].elements;
    assert es[0..] == es;
    for i := 0 to |es|
      invariant AddAll(elements, es[i..]) == AddAll(st.sets[at].elements, es)
    {
      assert es[i..][1..] == es[i + 1..];
      if es[i] !in elements {
        elements := elements + [es[i]];
      }
    }
    r := Ok(st.(sets := st.sets[at := st.sets[at].(elements := elements)]));
  }

  method CheckPieces(es: seq<Ip>) returns (ok: bool)
    ensures ok <==> AllAddresses(es)
  {
    for i := 0 to |es|
      invariant forall j :: 0 <= j < i ==> IsAddress(es[j])
    {
      if !IsAddress(es[i]) {
        return false;
      }
    }
    ok := true;
  }

  // ---- delete ---------------------------------------------------------------------------------

  function ElemIndex(es: seq<Ip>, e: Ip): (i: nat)
    ensures i <= |es|
    ensures i < |es| ==> es[i] == e
    ensures forall j :: 0 <= j < i ==> es[j] != e
  {
    if es == [] || es[0] == e then 0 else 1 + ElemIndex(es[1..], e)
  }

  lemma {:induction false} FirstElem(es: seq<Ip>, e: Ip, i: nat)
    requires i <= |es| && (i < |es| ==> es[i] == e)
    requires forall j :: 0 <= j < i ==> es[j] != e
    ensures ElemIndex(es, e) == i
  {
  }

  /** Takes the first occurrence of each piece out; one that is missing refuses them all. */
  function RemoveAll(had: seq<Ip>, es: seq<Ip>): Result<seq<Ip>>
    decreases |es|
  {
    if es == [] then Ok(had)
    else
      var i := ElemIndex(had, es[0]);
      if i == |had| then Err else RemoveAll(Without(had, i), es[1..])
  }

  function Without(had: seq<Ip>, i: nat): seq<Ip>
    requires i < |had|
  {
    had[..i] + had[i + 1..]
  }

  function DeleteFromSet(st: State, name: string, es: seq<Ip>): Result<State> {
    var i := SetIndex(st.sets, name);
    if !AllAddresses(es) || i == |st.sets| then Err
    else
      match RemoveAll(st.sets[i].elements, es)
      case Err => Err
      case Ok(left) => Ok(st.(sets := st.sets[i := st.sets[i].(elements := left)]))
  }

  method SetDel(st: State, name: string, es: seq<Ip>) returns (r: Result<State>)
    ensures r == DeleteFromSet(st, name, es)
  {
    var good := CheckPieces(es);
    if !good {
      return Err;
    }
    var at := FindSet(st.sets, name);
    if at == |st.sets| {
      return Err;
    }
    var left := RemovePieces(st.sets[at].elements, es);
    if left.Err? {
      return Err;
    }
    r := Ok(st.(sets := st.sets[at := st.sets[at].(elements := left.value)]));
  }

  lemma RemoveStep(had: seq<Ip>, es: seq<Ip>, i: nat)
    requires i < |es|
    ensures var k := ElemIndex(had, es[i]);
      RemoveAll(had, es[i..]) == if k == |had| then Err else RemoveAll(Without(had, k), es[i + 1..])
  {
    assert es[i..][0] == es[i] && es[i..][1..] == es[i + 1..];
  }

  method RemovePieces(had: seq<Ip>, es: seq<Ip>) returns (r: Result<seq<Ip>>)
    ensures r == RemoveAll(had, es)
  {
    var elements := had;
    assert es[0..] == es;
    for i := 0 to |es|
      invariant RemoveAll(elements, es[i..]) == RemoveAll(had, es)
    {
      RemoveStep(elements, es, i);
      var k := FindElem(elements, es[i]);
      if k == |elements| {
        return Err;
      }
      elements := elements[..k] + elements[k + 1..];
    }
    assert es[|es|..] == [];
    r := Ok(elements);
  }

  method FindElem(es: seq<Ip>, e: Ip) returns (k: nat)
    ensures k == ElemIndex(es, e)
  {
    k := 0;
    while k < |es| && es[k] != e
      invariant k <= |es| && forall j :: 0 <= j < k ==> es[j] != e
    {
      k := k + 1;
    }
    FirstElem(es, e, k);
  }

  predicate AllNew(had: seq<Ip>, es: seq<Ip>) {
    forall i :: 0 <= i < |es| ==> es[i] !in had && es[i] !in es[..i]
  }

  lemma {:induction false} AddNew(had: seq<Ip>, es: seq<Ip>)
    requires AllNew(had, es)
    ensures AddAll(had, es) == had + es
    decreases |es|
  {
    if es == [] {
      assert had + es == had;
    } else {
      forall i | 0 <= i < |es[1..]| ensures es[1..][i] !in had + [es[0]] && es[1..][i] !in es[1..][..i] {
        assert es[1..][i] == es[i + 1] && es[0] in es[..i + 1];
        assert forall x :: x in es[1..][..i] ==> x in es[..i + 1];
      }
      AddNew(had + [es[0]], es[1..]);
      assert had + [es[0]] + es[1..] == had + es;
    }
  }

  lemma {:induction false} RemoveNew(had: seq<Ip>, es: seq<Ip>)
    requires AllNew(had, es)
    ensures RemoveAll(had + es, es) == Ok(had)
    decreases |es|
  {
    if es == [] {
      assert had + es == had;
    } else {
      var all := had + es;
      FirstElem(all, es[0], |had|);
      assert all[..|had|] + all[|had| + 1..] == had + es[1..];
      forall i | 0 <= i < |es[1..]| ensures es[1..][i] !in had && es[1..][i] !in es[1..][..i] {
        assert es[1..][i] == es[i + 1];
        assert forall x :: x in es[1..][..i] ==> x in es[..i + 1];
      }
      RemoveNew(had, es[1..]);
    }
  }

  lemma IndexSame(sets: seq<IpSet>, name: string, es: seq<Ip>)
    requires SetIndex(sets, name) < |sets|
    ensures var i := SetIndex(sets, name); SetIndex(sets[i := sets[i].(elements := es)], name) == i
  {
    var i := SetIndex(sets, name);
    FirstIndex(sets[i := sets[i].(elements := es)], name, i);
  }

  /** Deleting new elements again brings the state back. */
  lemma AddThenDeleteElements(st: State, name: string, es: seq<Ip>)
    requires AddToSet(st, name, es).Ok? && AllNew(st.sets[SetIndex(st.sets, name)].elements, es)
    ensures DeleteFromSet(AddToSet(st, name, es).value, name, es) == Ok(st)
  {
    var i := SetIndex(st.sets, name);
    var had := st.sets[i].elements;
    AddNew(had, es);
    RemoveNew(had, es);
    IndexSame(st.sets, name, had + es);
    assert st.sets[i := st.sets[i].(elements := had + es)][i := st.sets[i]] == st.sets;
  }

  // ---- destroy --------------------------------------------------------------------------------

  predicate Refers(r: Rule, name: string) {
    r.src.setName == name || r.dst.setName == name
  }

  function KeepUnreferring(name: string): Rule -> bool {
    (r: Rule) => !Refers(r, name)
  }

  predicate Referenced(st: State, name: string) {
    (exists r :: r in st.rules4 && Refers(r, name)) || (exists r :: r in st.rules6 && Refers(r, name))
  }

  /** A set in use goes only by force, and the rules that use it go with it. */
  function DestroySet(st: State, name: string, force: bool): Result<State> {
    var i := SetIndex(st.sets, name);
    if i == |st.sets| || (Referenced(st, name) && !force) then Err
    else Ok(st.(sets := st.sets[..i] + st.sets[i + 1..],
                rules4 := Filter(st.rules4, KeepUnreferring(name)),
                rules6 := Filter(st.rules6, KeepUnreferring(name))))
  }

  /** The ids of the rules that use a set. */
  method CountReferences(st: State, name: string) returns (n: nat)
    ensures n > 0 <==> Referenced(st, name)
  {
    var ids4 := ReferringIds(st.rules4, name);
    var ids6 := ReferringIds(st.rules6, name);
    n := |ids4 + ids6|;
    if r :| r in st.rules4 && Refers(r, name) {
      assert r.id in ids4 + ids6;
    }
    if r :| r in st.rules6 && Refers(r, name) {
      assert r.id in ids4 + ids6;
    }
    if n > 0 {
      var id :| id in ids4 + ids6;
    }
  }

  method ReferringIds(rules: seq<Rule>, name: string) returns (ids: set<string>)
    ensures forall id :: id in ids <==> exists r :: r in rules && Refers(r, name) && r.id == id
  {
    ids := {};
    for i := 0 to |rules|
      invariant forall id :: id in ids <==> exists r :: r in rules[..i] && Refers(r, name) && r.id == id
    {
      assert forall r :: r in rules[..i + 1] <==> r in rules[..i] || r == rules[i];
      if Refers(rules[i], name) {
        ids := ids + {rules[i].id};
      }
    }
    assert rules[..|rules|] == rules;
  }

  method DropSetRefs(rules: seq<Rule>, name: string) returns (out: seq<Rule>)
    ensures out == Filter(rules, KeepUnreferring(name))
  {
    var cells := new Rule[|rules|](i requires 0 <= i < |rules| => rules[i]);
    assert cells[..] == rules;
    var n := KeepInPlace(cells, KeepUnreferring(name));
    out := cells[..n];
  }

  lemma UnusedKept(st: State, name: string)
    requires !Referenced(st, name)
    ensures Filter(st.rules4, KeepUnreferring(name)) == st.rules4 && Filter(st.rules6, KeepUnreferring(name)) == st.rules6
  {
    FilterAll(st.rules4, KeepUnreferring(name));
    FilterAll(st.rules6, KeepUnreferring(name));
  }

  method SetDestroy(st: State, name: string, force: bool) returns (r: Result<State>)
    ensures r == DestroySet(st, name, force)
  {
    var at := FindSet(st.sets, name);
    if at == |st.sets| {
      return Err;
    }
    var out := st;
    var n := CountReferences(st, name);
    if n > 0 {
      if !force {
        return Err;
      }
      var rules4 := DropSetRefs(st.rules4, name);
      var rules6 := DropSetRefs(st.rules6, name);
      out := out.(rules4 := rules4, rules6 := rules6);
    } else {
      UnusedKept(st, name);
    }
    r := Ok(out.(sets := st.sets[..at] + st.sets[at + 1..]));
  }

  // ---- every run of set commands ----------------------------------------------------------------

  datatype SetCommand =
    | Create(name: string) | Add(name: string, pieces: seq<Ip>)
    | Delete(name: string, pieces: seq<Ip>) | Destroy(name: string, force: bool)

  function CommandOn(st: State, c: SetCommand): Result<State> {
    match c
    case Create(name) => CreateSet(st, name)
    case Add(name, pieces) => AddToSet(st, name, pieces)
    case Delete(name, pieces) => DeleteFromSet(st, name, pieces)
    case Destroy(name, force) => DestroySet(st, name, force)
  }

  /** A refused command commits nothing. */
  function RunCommands(st: State, cs: seq<SetCommand>): State
    decreases |cs|
  {
    if cs == [] then st
    else RunCommands(if CommandOn(st, cs[0]).Ok? then CommandOn(st, cs[0]).value else st, cs[1..])
  }

  /** The set is one of the state's, or none is named. */
  predicate Resolves(sets: seq<IpSet>, name: string) {
    name == "" || exists i :: 0 <= i < |sets| && sets[i].name == name
  }

  predicate RefsResolve(rules: seq<Rule>, sets: seq<IpSet>) {
    forall r :: r in rules ==> Resolves(sets, r.src.setName) && Resolves(sets, r.dst.setName)
  }

  predicate SetsGood(sets: seq<IpSet>) {
    forall i :: 0 <= i < |sets| ==> AllAddresses(sets[i].elements)
  }

  /** Names apart, elements all addresses, and no rule left with a set that is gone. */
  predicate WellNamed(st: State) {
    && NamesApart(st.sets) && SetsGood(st.sets)
    && RefsResolve(st.rules4, st.sets) && RefsResolve(st.rules6, st.sets)
  }

  lemma CreateKeeps(st: State, name: string)
    requires WellNamed(st) && CreateSet(st, name).Ok?
    ensures WellNamed(CreateSet(st, name).value)
  {
    CreateExact(st, name);
    ResolvesMore(st.rules4, st.sets, [IpSet(name, [])]);
    ResolvesMore(st.rules6, st.sets, [IpSet(name, [])]);
  }

  lemma ResolvesMore(rules: seq<Rule>, sets: seq<IpSet>, more: seq<IpSet>)
    requires RefsResolve(rules, sets)
    ensures RefsResolve(rules, sets + more)
  {
    forall name | Resolves(sets, name) ensures Resolves(sets + more, name) {
      if name != "" {
        var i :| 0 <= i < |sets| && sets[i].name == name;
        assert (sets + more)[i] == sets[i];
      }
    }
  }

  /** New elements in one set touch no name. */
  lemma ElementsKeep(st: State, i: nat, es: seq<Ip>)
    requires WellNamed(st) && i < |st.sets| && AllAddresses(es)
    ensures WellNamed(st.(sets := st.sets[i := st.sets[i].(elements := es)]))
  {
    var sets := st.sets[i := st.sets[i].(elements := es)];
    assert forall k :: 0 <= k < |sets| ==> sets[k].name == st.sets[k].name;
    forall name | Resolves(st.sets, name) ensures Resolves(sets, name) {
      if name != "" {
        var k :| 0 <= k < |st.sets| && st.sets[k].name == name;
        assert sets[k].name == name;
      }
    }
  }

  lemma {:induction false} AddKeepsAddresses(had: seq<Ip>, es: seq<Ip>)
    requires AllAddresses(had) && AllAddresses(es)
    ensures AllAddresses(AddAll(had, es))
    decreases |es|
  {
    if es != [] {
      AddKeepsAddresses(if es[0] in had then had else had + [es[0]], es[1..]);
    }
  }

  lemma {:induction false} RemoveKeepsAddresses(had: seq<Ip>, es: seq<Ip>)
    requires AllAddresses(had) && RemoveAll(had, es).Ok?
    ensures AllAddresses(RemoveAll(had, es).value)
    decreases |es|
  {
    if es != [] {
      var i := ElemIndex(had, es[0]);
      RemoveKeepsAddresses(had[..i] + had[i + 1..], es[1..]);
    }
  }

  lemma OthersResolve(rules: seq<Rule>, sets: seq<IpSet>, i: nat)
    requires i < |sets| && RefsResolve(rules, sets)
    ensures RefsResolve(Filter(rules, KeepUnreferring(sets[i].name)), sets[..i] + sets[i + 1..])
  {
    var name, left := sets[i].name, sets[..i] + sets[i + 1..];
    FilterMembers(rules, KeepUnreferring(name));
    forall n | Resolves(sets, n) && n != name ensures Resolves(left, n) {
      if n != "" {
        var k :| 0 <= k < |sets| && sets[k].name == n;
        assert left[if k < i then k else k - 1] == sets[k];
      }
    }
  }

  lemma RemovedApart(sets: seq<IpSet>, i: nat)
    requires i < |sets| && NamesApart(sets) && SetsGood(sets)
    ensures NamesApart(sets[..i] + sets[i + 1..]) && SetsGood(sets[..i] + sets[i + 1..])
  {
    var left := sets[..i] + sets[i + 1..];
    assert forall k :: 0 <= k < |left| ==> left[k] == sets[if k < i then k else k + 1];
  }

  lemma CommandKeeps(st: State, c: SetCommand)
    requires WellNamed(st) && CommandOn(st, c).Ok?
    ensures WellNamed(CommandOn(st, c).value)
  {
    var i := SetIndex(st.sets, c.name);
    match c
    case Create(name) =>
      CreateKeeps(st, name);
    case Add(name, es) =>
      AddKeepsAddresses(st.sets[i].elements, es);
      ElementsKeep(st, i, AddAll(st.sets[i].elements, es));
    case Delete(name, es) =>
      RemoveKeepsAddresses(st.sets[i].elements, es);
      ElementsKeep(st, i, RemoveAll(st.sets[i].elements, es).value);
    case Destroy(name, force) =>
      DestroyKeeps(st, name, force);
  }

  lemma DestroyKeeps(st: State, name: string, force: bool)
    requires WellNamed(st) && DestroySet(st, name, force).Ok?
    ensures WellNamed(DestroySet(st, name, force).value)
  {
    var i := SetIndex(st.sets, name);
    OthersResolve(st.rules4, st.sets, i);
    OthersResolve(st.rules6, st.sets, i);
    RemovedApart(st.sets, i);
  }

  /** Whatever set commands are run, the names stay apart, so that the kernel gets each name
      once and every rule's set with the key length of its family. */
  lemma {:induction false} CommandsLoad(st: State, cs: seq<SetCommand>, now: int, sort: Sorting)
    requires WellNamed(st)
    ensures var end := RunCommands(st, cs);
      && WellNamed(end) && OncePerName(FinalAlloc(end, now, sort).batch)
      && SetsInBatch(end, FinalAlloc(end, now, sort).batch)
    decreases |cs|
  {
    if cs == [] {
      BatchByName(st, now, sort);
      AllInBatch(st, now, sort);
    } else {
      if CommandOn(st, cs[0]).Ok? {
        CommandKeeps(st, cs[0]);
      }
      CommandsLoad(if CommandOn(st, cs[0]).Ok? then CommandOn(st, cs[0]).value else st, cs[1..], now, sort);
    }
  }

  ghost predicate InBatch(batch: seq<SetObject>, name: string, v6: bool) {
    exists k :: 0 <= k < |batch| && batch[k].key == NamedSet(SetText(name, v6)) && batch[k].keyLen == KeyLen(v6)
  }

  ghost predicate RuleSetsIn(batch: seq<SetObject>, r: Rule, v6: bool) {
    (r.src.setName != "" ==> InBatch(batch, r.src.setName, v6))
    && (r.dst.setName != "" ==> InBatch(batch, r.dst.setName, v6))
  }

  ghost predicate SetsInBatch(st: State, batch: seq<SetObject>) {
    (forall r :: r in st.rules4 ==> RuleSetsIn(batch, r, false))
    && (forall r :: r in st.rules6 ==> RuleSetsIn(batch, r, true))
  }

  lemma AllInBatch(st: State, now: int, sort: Sorting)
    requires WellNamed(st)
    ensures SetsInBatch(st, FinalAlloc(st, now, sort).batch)
  {
    forall name, v6 | Resolves(st.sets, name) && name != ""
      ensures InBatch(FinalAlloc(st, now, sort).batch, name, v6)
    {
      var i :| 0 <= i < |st.sets| && st.sets[i].name == name;
      var k := HalfInBatch(st, now, sort, i, v6);
    }
  }

  // ---- imported sets ------------------------------------------------------------------------------

  /** The elements that are not there yet; they are not compared with one another. */
  function Missing(had: seq<Ip>): Ip -> bool {
    (e: Ip) => e !in had
  }

  function MergeSet(sets: seq<IpSet>, s: IpSet): seq<IpSet> {
    var i := SetIndex(sets, s.name);
    if i == |sets| then sets + [s]
    else sets[i := sets[i].(elements := sets[i].elements + Filter(s.elements, Missing(sets[i].elements)))]
  }

  function MergeSets(sets: seq<IpSet>, imported: seq<IpSet>): seq<IpSet>
    decreases |imported|
  {
    if imported == [] then sets else MergeSets(MergeSet(sets, imported[0]), imported[1..])
  }

  method MergeElements(had: seq<Ip>, es: seq<Ip>) returns (elements: seq<Ip>)
    ensures elements == had + Filter(es, Missing(had))
  {
    elements := had;
    for j := 0 to |es|
      invariant elements == had + Filter(es[..j], Missing(had))
    {
      assert es[..j + 1][..j] == es[..j];
      if es[j] !in had {
        elements := elements + [es[j]];
      }
    }
    assert es[..|es|] == es;
  }

  method MergeImportedSets(sets: seq<IpSet>, imported: seq<IpSet>) returns (out: seq<IpSet>)
    ensures out == MergeSets(sets, imported)
  {
    out := sets;
    assert imported[0..] == imported;
    for i := 0 to |imported|
      invariant MergeSets(out, imported[i..]) == MergeSets(sets, imported)
    {
      assert imported[i..][1..] == imported[i + 1..];
      var s := imported[i];
      var at := FindSet(out, s.name);
      if at == |out| {
        out := out + [s];
      } else {
        var elements := MergeElements(out[at].elements, s.elements);
        out := out[at := out[at].(elements := elements)];
      }
    }
  }

  predicate Named(sets: seq<IpSet>, name: string) {
    exists i :: 0 <= i < |sets| && sets[i].name == name
  }

  lemma MergeOneNames(sets: seq<IpSet>, s: IpSet)
    ensures forall n :: Named(MergeSet(sets, s), n) <==> Named(sets, n) || n == s.name
    ensures DistinctNames(sets) ==> DistinctNames(MergeSet(sets, s))
  {
    var i, out := SetIndex(sets, s.name), MergeSet(sets, s);
    assert forall k :: 0 <= k < |sets| ==> out[k].name == sets[k].name;
    assert i == |sets| ==> out[i].name == s.name;
    forall n ensures Named(out, n) <==> Named(sets, n) || n == s.name {
      if Named(sets, n) {
        var k :| 0 <= k < |sets| && sets[k].name == n;
        assert out[k].name == n;
      }
      assert out[i].name == s.name;
    }
  }

  /** The merge has the names of both sides, each once. */
  lemma {:induction false} MergedNames(sets: seq<IpSet>, imported: seq<IpSet>)
    ensures forall n :: Named(MergeSets(sets, imported), n) <==> Named(sets, n) || Named(imported, n)
    ensures DistinctNames(sets) ==> DistinctNames(MergeSets(sets, imported))
    decreases |imported|
  {
    if imported != [] {
      MergeOneNames(sets, imported[0]);
      MergedNames(MergeSet(sets, imported[0]), imported[1..]);
      forall n ensures Named(imported, n) <==> n == imported[0].name || Named(imported[1..], n) {
        assert forall i :: 0 < i < |imported| ==> imported[i] == imported[1..][i - 1];
      }
    }
  }

  lemma TwinsByName(sets: seq<IpSet>)
    ensures NoTwins(sets) <==> forall n :: Named(sets, n) ==> !Named(sets, n + "6")
  {
    if NoTwins(sets) {
      forall n | Named(sets, n) ensures !Named(sets, n + "6") {
        var i :| 0 <= i < |sets| && sets[i].name == n;
      }
    }
    if forall n :: Named(sets, n) ==> !Named(sets, n + "6") {
      forall i, j | 0 <= i < |sets| && 0 <= j < |sets| ensures sets[i].name + "6" != sets[j].name {
        assert Named(sets, sets[i].name);
      }
    }
  }

  lemma NamedConcat(a: seq<IpSet>, b: seq<IpSet>, n: string)
    ensures Named(a + b, n) <==> Named(a, n) || Named(b, n)
  {
    if Named(a, n) {
      var i :| 0 <= i < |a| && a[i].name == n;
      assert (a + b)[i].name == n;
    }
    if Named(b, n) {
      var i :| 0 <= i < |b| && b[i].name == n;
      assert (a + b)[|a| + i].name == n;
    }
  }

  /** An import compares names for equality alone: the kernel names stay apart exactly when
      no name of either side is a twin of another one. */
  lemma MergeApartIff(sets: seq<IpSet>, imported: seq<IpSet>)
    requires DistinctNames(sets)
    ensures NamesApart(MergeSets(sets, imported)) <==> NoTwins(sets + imported)
  {
    MergedNames(sets, imported);
    TwinsByName(MergeSets(sets, imported));
    TwinsByName(sets + imported);
    forall n ensures Named(sets + imported, n) <==> Named(MergeSets(sets, imported), n) {
      NamedConcat(sets, imported, n);
    }
  }

  /** Some set of that name has the address among its elements. */
  ghost predicate NamedHas(sets: seq<IpSet>, name: string, addr: seq<Byte>) {
    exists i :: 0 <= i < |sets| && sets[i].name == name && SomeElementHas(sets[i].elements, addr)
  }

  lemma ElementsByMember(es: seq<Ip>, addr: seq<Byte>)
    ensures SomeElementHas(es, addr) <==> exists e :: e in es && IsAddress(e) && InPrefix(e.bytes, e.ones, addr)
  {
    if e :| e in es && IsAddress(e) && InPrefix(e.bytes, e.ones, addr) {
      var i :| 0 <= i < |es| && es[i] == e;
    }
  }

  lemma UnionHas(had: seq<Ip>, more: seq<Ip>, addr: seq<Byte>)
    ensures SomeElementHas(had + Filter(more, Missing(had)), addr) <==> SomeElementHas(had, addr) || SomeElementHas(more, addr)
  {
    ElementsByMember(had, addr);
    ElementsByMember(more, addr);
    ElementsByMember(had + Filter(more, Missing(had)), addr);
    FilterMembers(more, Missing(had));
  }

  lemma MergeOneHas(sets: seq<IpSet>, s: IpSet, name: string, addr: seq<Byte>)
    ensures NamedHas(MergeSet(sets, s), name, addr)
      <==> NamedHas(sets, name, addr) || (s.name == name && SomeElementHas(s.elements, addr))
  {
    var i, out := SetIndex(sets, s.name), MergeSet(sets, s);
    if i < |sets| {
      UnionHas(sets[i].elements, s.elements, addr);
    } else {
      assert out[i] == s;
    }
    if NamedHas(sets, name, addr) {
      var k :| 0 <= k < |sets| && sets[k].name == name && SomeElementHas(sets[k].elements, addr);
      assert out[k].name == name && SomeElementHas(out[k].elements, addr);
    }
    if s.name == name && SomeElementHas(s.elements, addr) {
      assert out[i].name == name && SomeElementHas(out[i].elements, addr);
    }
  }

  /** Each name means the addresses it meant on either side. */
  lemma {:induction false} MergedMeaning(sets: seq<IpSet>, imported: seq<IpSet>, name: string, addr: seq<Byte>)
    ensures NamedHas(MergeSets(sets, imported), name, addr)
      <==> NamedHas(sets, name, addr) || NamedHas(imported, name, addr)
    decreases |imported|
  {
    if imported != [] {
      MergeOneHas(sets, imported[0], name, addr);
      MergedMeaning(MergeSet(sets, imported[0]), imported[1..], name, addr);
      assert forall i :: 0 < i < |imported| ==> imported[i] == imported[1..][i - 1];
      assert forall i :: 0 <= i < |imported[1..]| ==> imported[1..][i] == imported[i + 1];
    }
  }

  // ---- a set that only an import can add ------------------------------------------------------------

  /** With a set "a", the command refuses "a6" but an import of "a6" goes through; the state
      still compiles, and the kernel gets one name for IPv6 and for IPv4 keys. */
  lemma ImportedTwin(st: State, es: seq<Ip>, now: int, sort: Sorting) returns (j: nat, k: nat)
    requires NamesApart(st.sets) && Named(st.sets, "a")
    ensures CreateSet(st, "a6") == Err
    ensures var end := st.(sets := MergeSets(st.sets, [IpSet("a6", es)]));
      var batch := FinalAlloc(end, now, sort).batch;
      && (!CompileFails(st, now) && !AddressesFail(es) ==> !CompileFails(end, now))
      && j < |batch| && k < |batch| && batch[j].key == batch[k].key == NamedSet("a6")
      && batch[j].keyLen == 16 && batch[k].keyLen == 4
  {
    var i :| 0 <= i < |st.sets| && st.sets[i].name == "a";
    assert Twins("a6", st.sets[i].name) by {
      assert "a" + "6" == "a6";
    }
    var s, t := IpSet("a6", es), [IpSet("a6", es)];
    assert t[1..] == [];
    TwinAppended(st.sets, i, es);
    var end := st.(sets := MergeSets(st.sets, t));
    assert end.sets[i] == st.sets[i] && end.sets[|st.sets|] == s;
    j := HalfInBatch(end, now, sort, i, true);
    k := HalfInBatch(end, now, sort, |st.sets|, false);
  }

  lemma TwinAppended(sets: seq<IpSet>, i: nat, es: seq<Ip>)
    requires NoTwins(sets) && i < |sets| && sets[i].name == "a"
    ensures MergeSets(sets, [IpSet("a6", es)]) == sets + [IpSet("a6", es)]
  {
    var s := IpSet("a6", es);
    assert sets[i].name + "6" == s.name;
    assert SetIndex(sets, s.name) == |sets|;
    assert [s][1..] == [];
    assert MergeSets(MergeSet(sets, s), []) == MergeSet(sets, s);
  }
}
