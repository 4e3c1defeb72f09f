/** What the commands on named sets accept and leave behind, element by element. */
module SetFacts {
  import opened Bytes
  import opened Rules
  import opened Store
  import opened InPlace
  import opened Compile
  import opened SetCommands

  /** The i-th set is the one the commands call by this name. */
  predicate Called(sets: seq<IpSet>, i: nat, name: string) {
    i < |sets| && sets[i].name == name && forall j :: 0 <= j < i ==> sets[j].name != name
  }

  predicate Unknown(sets: seq<IpSet>, name: string) {
    forall j :: 0 <= j < |sets| ==> sets[j].name != name
  }

  lemma IndexIs(sets: seq<IpSet>, i: nat, name: string)
    ensures Called(sets, i, name) ==> SetIndex(sets, name) == i
    ensures Unknown(sets, name) ==> SetIndex(sets, name) == |sets|
  {
    if Called(sets, i, name) {
      FirstIndex(sets, name, i);
    }
  }

  /** A command on a set that does not exist is refused. */
  lemma UnknownRefused(st: State, name: string, es: seq<Ip>, force: bool)
    requires Unknown(st.sets, name)
    ensures AddToSet(st, name, es) == Err && DeleteFromSet(st, name, es) == Err && DestroySet(st, name, force) == Err
  {
    IndexIs(st.sets, 0, name);
  }

  predicate AnAddress(ip: Ip) {
    ip.Net? && ip.Valid() && (|ip.bytes| == 4 || |ip.bytes| == 16)
  }

  predicate Addresses(es: seq<Ip>) {
    forall i :: 0 <= i < |es| ==> AnAddress(es[i])
  }

  // ---- add -----------------------------------------------------------------------------------------

  predicate NoneTwice(es: seq<Ip>) {
    forall i, j :: 0 <= i < j < |es| ==> es[i] != es[j]
  }

  /** had in front, then what is new of es, each once. */
  ghost predicate Extends(had: seq<Ip>, es: seq<Ip>, out: seq<Ip>) {
    && had <= out && NoneTwice(out[|had|..])
    && (forall x :: x in out[|had|..] <==> x in es && x !in had)
  }

  lemma {:induction false} AddExtends(had: seq<Ip>, es: seq<Ip>)
    ensures Extends(had, es, AddAll(had, es))
    decreases |es|
  {
    if es == [] {
      assert had[|had|..] == [];
    } else if es[0] in had {
      AddExtends(had, es[1..]);
      assert es == [es[0]] + es[1..];
    } else {
      var out := AddAll(had + [es[0]], es[1..]);
      AddExtends(had + [es[0]], es[1..]);
      assert es == [es[0]] + es[1..];
      assert out[|had|..] == [es[0]] + out[|had| + 1..];
    }
  }

  /** Adding takes addresses only, at least one, and puts those that are new behind the others. */
  lemma AddedElements(st: State, name: string, es: seq<Ip>, i: nat)
    requires Called(st.sets, i, name)
    ensures AddToSet(st, name, es).Ok? <==> |es| >= 1 && Addresses(es)
    ensures AddToSet(st, name, es).Ok? ==>
      var out := AddToSet(st, name, es).value;
      && |out.sets| == |st.sets| && Extends(st.sets[i].elements, es, out.sets[i].elements)
      && out == st.(sets := st.sets[i := IpSet(name, out.sets[i].elements)])
  {
    IndexIs(st.sets, i, name);
    AddExtends(st.sets[i].elements, es);
  }

  // ---- delete --------------------------------------------------------------------------------------------

  lemma WithoutOne(had: seq<Ip>, k: nat)
    requires k < |had|
    ensures multiset(had[..k] + had[k + 1..]) == multiset(had) - multiset{had[k]}
  {
    assert had == had[..k] + [had[k]] + had[k + 1..];
  }

  lemma {:induction false} RemoveCounts(had: seq<Ip>, es: seq<Ip>)
    ensures RemoveAll(had, es).Ok? <==> multiset(es) <= multiset(had)
    ensures RemoveAll(had, es).Ok? ==> multiset(RemoveAll(had, es).value) == multiset(had) - multiset(es)
    decreases |es|
  {
    if es != [] {
      assert es == [es[0]] + es[1..];
      assert multiset(es) == multiset{es[0]} + multiset(es[1..]);
      var k := ElemIndex(had, es[0]);
      if k == |had| {
        assert es[0] !in had;
        assert es[0] in multiset(es);
      } else {
        WithoutOne(had, k);
        RemoveCounts(had[..k] + had[k + 1..], es[1..]);
      }
    }
  }

  /** Deleting takes addresses only, each as often as the set has it, and takes these out. */
  lemma DeletedElements(st: State, name: string, es: seq<Ip>, i: nat)
    requires Called(st.sets, i, name)
    ensures DeleteFromSet(st, name, es).Ok? <==> Addresses(es) && multiset(es) <= multiset(st.sets[i].elements)
    ensures DeleteFromSet(st, name, es).Ok? ==>
      var out := DeleteFromSet(st, name, es).value;
      && |out.sets| == |st.sets|
      && multiset(out.sets[i].elements) == multiset(st.sets[i].elements) - multiset(es)
      && out == st.(sets := st.sets[i := IpSet(name, out.sets[i].elements)])
  {
    IndexIs(st.sets, i, name);
    RemoveCounts(st.sets[i].elements, es);
  }

  /** Deleting one element leaves the order of the others. */
  lemma DeletedOne(st: State, name: string, i: nat, k: nat)
    requires Called(st.sets, i, name) && k < |st.sets[i].elements| && AnAddress(st.sets[i].elements[k])
    requires forall j :: 0 <= j < k ==> st.sets[i].elements[j] != st.sets[i].elements[k]
    ensures var had := st.sets[i].elements;
      DeleteFromSet(st, name, [had[k]]) == Ok(st.(sets := st.sets[i := IpSet(name, had[..k] + had[k + 1..])]))
  {
    var had := st.sets[i].elements;
    IndexIs(st.sets, i, name);
    FirstElem(had, had[k], k);
    assert RemoveAll(had, [had[k]]) == RemoveAll(had[..k] + had[k + 1..], [had[k]][1..]);
  }

  // ---- destroy -------------------------------------------------------------------------------------------------

  predicate Uses(r: Rule, name: string) {
    r.src.setName == name || r.dst.setName == name
  }

  ghost predicate Used(st: State, name: string) {
    exists r :: (r in st.rules4 || r in st.rules6) && Uses(r, name)
  }

  /** A set that rules use is destroyed by force only, and then with these rules. */
  lemma DestroyedSet(st: State, name: string, force: bool, i: nat, r: Rule)
    requires Called(st.sets, i, name)
    ensures DestroySet(st, name, force).Ok? <==> force || !Used(st, name)
    ensures DestroySet(st, name, force).Ok? ==>
      var out := DestroySet(st, name, force).value;
      && out == st.(sets := st.sets[..i] + st.sets[i + 1..], rules4 := out.rules4, rules6 := out.rules6)
      && (r in out.rules4 <==> r in st.rules4 && !Uses(r, name))
      && (r in out.rules6 <==> r in st.rules6 && !Uses(r, name))
      && (!Used(st, name) ==> out.rules4 == st.rules4 && out.rules6 == st.rules6)
  {
    IndexIs(st.sets, i, name);
    FilterMembers(st.rules4, KeepUnreferring(name));
    FilterMembers(st.rules6, KeepUnreferring(name));
    UsedIs(st, name);
    if !Referenced(st, name) {
      UnusedKept(st, name);
    }
  }

  lemma UsedIs(st: State, name: string)
    ensures Used(st, name) <==> Referenced(st, name)
  {
    if r :| (r in st.rules4 || r in st.rules6) && Uses(r, name) {
      assert Refers(r, name);
    }
    if Referenced(st, name) {
      if r :| r in st.rules4 && Refers(r, name) {
        assert Uses(r, name);
      }
      if r :| r in st.rules6 && Refers(r, name) {
        assert Uses(r, name);
      }
    }
  }
}
