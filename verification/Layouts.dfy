/** What an import of zones does, told on the zone files themselves: which layouts are accepted,
    and what each zone's elements then decide. */
module Layouts {
  import opened Bytes
  import opened Cidr
  import opened Rules
  import opened FirstMatch
  import opened Firewalld

  /** The rules of one family that a layout stages, or its refusal. */
  ghost function Staged(zones: seq<Zone>, defaultZone: string, v6: bool): Result<seq<Rule>>
    requires ValidZones(zones)
  {
    match Accepted(zones, defaultZone)
    case Err => Err
    case Ok(active) => FlatRules(active, v6)
  }

  predicate NothingBound(zones: seq<Zone>) {
    forall i :: 0 <= i < |zones| ==> zones[i].bindings == []
  }

  lemma ValidInit(zones: seq<Zone>)
    requires ValidZones(zones) && zones != []
    ensures ValidZones(zones[..|zones| - 1])
  {
    assert forall i :: 0 <= i < |zones| - 1 ==> zones[..|zones| - 1][i] == zones[i];
  }

  lemma {:induction false} BoundNone(zones: seq<Zone>)
    ensures BoundCount(zones) == 0 <==> NothingBound(zones)
  {
    if zones != [] {
      var n := |zones| - 1;
      BoundNone(zones[..n]);
      assert forall i :: 0 <= i < n ==> zones[..n][i] == zones[i];
      if NothingBound(zones) {
        assert zones[n].bindings == [];
      }
    }
  }

  // ---- nothing is bound ------------------------------------------------------------------------

  function Whole(z: Zone): Zone {
    z.(bindings := [Everything])
  }

  lemma {:induction false} NoDefaultActive(zones: seq<Zone>, defaultZone: string)
    requires NothingBound(zones) && forall i :: 0 <= i < |zones| ==> zones[i].name != defaultZone
    ensures ActiveZones(zones, defaultZone, 0) == Ok([])
  {
    if zones != [] {
      assert zones[|zones| - 1].name != defaultZone;
      NoDefaultActive(zones[..|zones| - 1], defaultZone);
    }
  }

  lemma {:induction false} DefaultActive(zones: seq<Zone>, defaultZone: string, k: nat)
    requires NothingBound(zones) && k < |zones| && zones[k].name == defaultZone
    requires forall i :: 0 <= i < |zones| && i != k ==> zones[i].name != defaultZone
    ensures ActiveZones(zones, defaultZone, 0) == Ok([Whole(zones[k])])
  {
    var n := |zones| - 1;
    assert forall i :: 0 <= i < n ==> zones[..n][i] == zones[i];
    if k == n {
      NoDefaultActive(zones[..n], defaultZone);
      assert [] + [Whole(zones[k])] == [Whole(zones[k])];
    } else {
      DefaultActive(zones[..n], defaultZone, k);
    }
  }

  /** An element that speaks about neither family is refused. */
  predicate HasFamily(t: Template) {
    t.v4 || t.v6
  }

  lemma {:induction false} WholeRules(elems: seq<Template>, v6: bool)
    requires ValidTemplates(elems)
    ensures ValidBindings([Everything])
    ensures ZoneRules([Everything], elems, v6).Ok? <==> forall i :: 0 <= i < |elems| ==> HasFamily(elems[i])
  {
    if elems != [] {
      assert forall i :: 0 < i < |elems| ==> elems[i] == elems[1..][i - 1];
      assert forall i :: 0 <= i < |elems[1..]| ==> elems[1..][i] == elems[i + 1];
      WholeRules(elems[1..], v6);
      assert [Everything][1..] == [];
      assert ExpandOne(Everything, elems[0], v6).Ok? <==> HasFamily(elems[0]);
      assert Expand([Everything], elems[0], v6).Ok? <==> HasFamily(elems[0]);
    }
  }

  lemma OneWhole(z: Zone, v6: bool)
    requires ValidZone(z)
    ensures ValidZones([Whole(z)]) && OverlapFree([Whole(z)])
    ensures FlatRules([Whole(z)], v6).Ok? <==> forall i :: 0 <= i < |z.elems| ==> HasFamily(z.elems[i])
  {
    WholeRules(z.elems, v6);
    assert [Whole(z)][1..] == [];
  }

  /** Nothing is bound and the default zone is listed once: the layout is accepted unless one of
      its elements has no family, and then the zone's elements decide all traffic. */
  lemma UnboundDefaultDecides(zones: seq<Zone>, defaultZone: string, k: nat, now: int, sets: SetFn, p: Packet)
    requires ValidZones(zones) && NothingBound(zones) && k < |zones| && zones[k].name == defaultZone
    requires forall i :: 0 <= i < |zones| && i != k ==> zones[i].name != defaultZone
    requires p.Valid()
    ensures var rules := Staged(zones, defaultZone, p.v6);
      && (rules.Ok? <==> forall i :: 0 <= i < |zones[k].elems| ==> HasFamily(zones[k].elems[i]))
      && (rules.Ok? ==>
            Listed(rules.value) && Decide(rules.value, p.v6, In, now, sets, p) == FirstElement(zones[k].elems, sets, p))
  {
    var z := Whole(zones[k]);
    BoundNone(zones);
    DefaultActive(zones, defaultZone, k);
    OneWhole(zones[k], p.v6);
    assert Accepted(zones, defaultZone) == Ok([z]);
    if Staged(zones, defaultZone, p.v6).Ok? {
      FlatExact([z], now, sets, p);
      assert BindingMatches(z.bindings[0], sets, p);
    }
  }

  /** The packet belongs to no zone of the list. */
  ghost predicate Outside(zones: seq<Zone>, sets: SetFn, p: Packet)
    requires ValidZones(zones)
  {
    forall i :: 0 <= i < |zones| ==> !InZone(zones[i], sets, p)
  }

  // ---- something is bound -------------------------------------------------------------------------

  /** Leaving zones without bindings out changes nothing, for no packet belongs to them. */
  lemma {:induction false} SkippedZones(zones: seq<Zone>, defaultZone: string, bound: nat, sets: SetFn, p: Packet)
    requires ValidZones(zones) && bound > 0 && ActiveZones(zones, defaultZone, bound).Ok?
    ensures var active := ActiveZones(zones, defaultZone, bound).value;
      && ValidZones(active) && Dispatch(active, sets, p) == Dispatch(zones, sets, p)
      && (Outside(active, sets, p) <==> Outside(zones, sets, p))
  {
    if zones != [] {
      var n := |zones| - 1;
      ValidInit(zones);
      SkippedZones(zones[..n], defaultZone, bound, sets, p);
      var active := ActiveZones(zones[..n], defaultZone, bound).value;
      assert zones == zones[..n] + [zones[n]];
      DispatchSnoc(zones[..n], zones[n], sets, p);
      OutsideSnoc(zones[..n], zones[n], sets, p);
      if zones[n].bindings != [] {
        DispatchSnoc(active, zones[n], sets, p);
        OutsideSnoc(active, zones[n], sets, p);
      }
    }
  }

  lemma {:induction false} DispatchSnoc(zones: seq<Zone>, z: Zone, sets: SetFn, p: Packet)
    requires ValidZones(zones) && ValidZone(z)
    ensures ValidZones(zones + [z])
    ensures Dispatch(zones + [z], sets, p)
      == if Outside(zones, sets, p) && InZone(z, sets, p) then FirstElement(z.elems, sets, p) else Dispatch(zones, sets, p)
    decreases |zones|
  {
    var all := zones + [z];
    assert forall i :: 0 <= i < |zones| ==> all[i] == zones[i];
    if zones == [] {
      assert all == [z] && [z][1..] == [];
    } else {
      ValidTail(zones);
      assert all[1..] == zones[1..] + [z];
      DispatchSnoc(zones[1..], z, sets, p);
      assert forall i :: 0 < i < |zones| ==> zones[i] == zones[1..][i - 1];
      assert Outside(zones, sets, p) <==> !InZone(zones[0], sets, p) && Outside(zones[1..], sets, p) by {
        assert forall i :: 0 <= i < |zones[1..]| ==> zones[1..][i] == zones[i + 1];
      }
    }
  }

  /** Zones of the layout that share no packet share none after the selection. */
  lemma {:induction false} SkippedOneZone(zones: seq<Zone>, defaultZone: string, bound: nat, sets: SetFn, p: Packet)
    requires ValidZones(zones) && bound > 0 && ActiveZones(zones, defaultZone, bound).Ok? && OneZone(zones, sets, p)
    ensures var active := ActiveZones(zones, defaultZone, bound).value;
      && ValidZones(active) && OneZone(active, sets, p) && (Outside(active, sets, p) <==> Outside(zones, sets, p))
  {
    if zones != [] {
      var n := |zones| - 1;
      ValidInit(zones);
      assert forall i :: 0 <= i < n ==> zones[..n][i] == zones[i];
      SkippedOneZone(zones[..n], defaultZone, bound, sets, p);
      var active := ActiveZones(zones[..n], defaultZone, bound).value;
      assert Outside(zones, sets, p) <==> Outside(zones[..n], sets, p) && !InZone(zones[n], sets, p);
      if InZone(zones[n], sets, p) {
        assert Outside(zones[..n], sets, p);
      }
      OutsideSnoc(active, zones[n], sets, p);
    }
  }

  lemma OutsideSnoc(zones: seq<Zone>, z: Zone, sets: SetFn, p: Packet)
    requires ValidZones(zones) && ValidZone(z)
    ensures ValidZones(zones + [z])
    ensures Outside(zones + [z], sets, p) <==> Outside(zones, sets, p) && !InZone(z, sets, p)
    ensures OneZone(zones, sets, p) && (InZone(z, sets, p) ==> Outside(zones, sets, p)) ==> OneZone(zones + [z], sets, p)
  {
    var all := zones + [z];
    assert forall i :: 0 <= i < |zones| ==> all[i] == zones[i];
    assert all[|zones|] == z;
  }

  lemma StagedDispatch(zones: seq<Zone>, defaultZone: string, now: int, sets: SetFn, p: Packet)
    requires ValidZones(zones) && !NothingBound(zones) && p.Valid() && OneZone(zones, sets, p)
    requires Staged(zones, defaultZone, p.v6).Ok?
    ensures Listed(Staged(zones, defaultZone, p.v6).value)
    ensures Decide(Staged(zones, defaultZone, p.v6).value, p.v6, In, now, sets, p) == Dispatch(zones, sets, p)
  {
    BoundNone(zones);
    var active := Accepted(zones, defaultZone).value;
    SkippedZones(zones, defaultZone, BoundCount(zones), sets, p);
    SkippedOneZone(zones, defaultZone, BoundCount(zones), sets, p);
    FlatExact(active, now, sets, p);
  }

  lemma {:induction false} OnlyZone(zones: seq<Zone>, i: nat, sets: SetFn, p: Packet)
    requires ValidZones(zones) && i < |zones| && InZone(zones[i], sets, p)
    requires forall k :: 0 <= k < |zones| && k != i ==> !InZone(zones[k], sets, p)
    ensures Dispatch(zones, sets, p) == FirstElement(zones[i].elems, sets, p)
    decreases |zones|
  {
    ValidTail(zones);
    if i > 0 {
      assert forall k :: 0 <= k < |zones[1..]| ==> zones[1..][k] == zones[k + 1];
      OnlyZone(zones[1..], i - 1, sets, p);
    }
  }

  /** In an accepted layout a packet that satisfies a binding of one zone, and none of another's,
      is decided by that zone's elements. */
  lemma BoundZoneDecides(zones: seq<Zone>, defaultZone: string, i: nat, m: nat, now: int, sets: SetFn, p: Packet)
    requires ValidZones(zones) && p.Valid() && Staged(zones, defaultZone, p.v6).Ok?
    requires i < |zones| && m < |zones[i].bindings| && BindingMatches(zones[i].bindings[m], sets, p)
    requires forall k, n :: 0 <= k < |zones| && k != i && 0 <= n < |zones[k].bindings| ==> !BindingMatches(zones[k].bindings[n], sets, p)
    ensures Listed(Staged(zones, defaultZone, p.v6).value)
    ensures Decide(Staged(zones, defaultZone, p.v6).value, p.v6, In, now, sets, p) == FirstElement(zones[i].elems, sets, p)
  {
    forall k | 0 <= k < |zones| && k != i ensures !InZone(zones[k], sets, p) {
      assert forall n :: 0 <= n < |zones[k].bindings| ==> !BindingMatches(zones[k].bindings[n], sets, p);
    }
    OnlyZone(zones, i, sets, p);
    StagedDispatch(zones, defaultZone, now, sets, p);
  }

  /** Where something is bound, a packet that satisfies no binding meets no rule: the elements of
      unbound zones never act. */
  lemma UnboundZonesSilent(zones: seq<Zone>, defaultZone: string, now: int, sets: SetFn, p: Packet)
    requires ValidZones(zones) && !NothingBound(zones) && p.Valid() && Staged(zones, defaultZone, p.v6).Ok?
    requires forall k, n :: 0 <= k < |zones| && 0 <= n < |zones[k].bindings| ==> !BindingMatches(zones[k].bindings[n], sets, p)
    ensures Listed(Staged(zones, defaultZone, p.v6).value)
    ensures Decide(Staged(zones, defaultZone, p.v6).value, p.v6, In, now, sets, p) == None
  {
    forall k | 0 <= k < |zones| ensures !InZone(zones[k], sets, p) {
      assert forall n :: 0 <= n < |zones[k].bindings| ==> !BindingMatches(zones[k].bindings[n], sets, p);
    }
    NoZone(zones, sets, p);
    StagedDispatch(zones, defaultZone, now, sets, p);
  }

  // ---- refusals -------------------------------------------------------------------------------------

  /** Two conditions of different zones that the import will not tell apart. */
  predicate MayShare(a: Binding, b: Binding)
    requires a.Valid() && b.Valid()
  {
    match (a, b)
    case (OfIface(x), OfIface(y)) => x == y
    case (OfIface(_), _) => true
    case (_, OfIface(_)) => true
    case (OfSource(x), OfSource(y)) =>
      |x.bytes| == |y.bytes|
      && ((x.ones <= y.ones && InPrefix(x.bytes, x.ones, y.bytes)) || (y.ones <= x.ones && InPrefix(y.bytes, y.ones, x.bytes)))
    case (OfSource(x), OfSet(_, v6)) => |x.bytes| == if v6 then 16 else 4
    case (OfSet(_, v6), OfSource(y)) => |y.bytes| == if v6 then 16 else 4
    case (OfSet(_, x6), OfSet(_, y6)) => x6 == y6
    case _ => true
  }

  lemma MayShareExact(a: Binding, b: Binding)
    requires a.Valid() && b.Valid()
    ensures Overlap(a, b) <==> MayShare(a, b)
  {
  }

  /** An element that cannot be restricted to the condition: two different source tests, or no
      family in common. */
  predicate Unfit(b: Binding, t: Template)
    requires b.Valid() && t.Valid()
  {
    match b
    case OfSource(ip) =>
      || t.src.setName != ""
      || ((t.src.ip.Net? ==> NetContains(ip, t.src.ip) || NetContains(t.src.ip, ip)) && !(if |ip.bytes| == 4 then t.v4 else t.v6))
    case OfSet(name, v6) =>
      || (t.src.setName != name && (t.src.setName != "" || t.src.ip.Net?))
      || !(if v6 then t.v6 else t.v4)
    case _ => !t.v4 && !t.v6
  }

  lemma UnfitExact(b: Binding, t: Template, v6: bool)
    requires b.Valid() && t.Valid()
    ensures ExpandOne(b, t, v6).Err? <==> Unfit(b, t)
  {
  }

  ghost predicate ZoneFits(z: Zone)
    requires ValidZone(z)
  {
    forall i, j :: 0 <= i < |z.bindings| && 0 <= j < |z.elems| ==> !Unfit(z.bindings[i], z.elems[j])
  }

  lemma {:induction false} ExpandFits(bindings: seq<Binding>, t: Template, v6: bool)
    requires ValidBindings(bindings) && t.Valid()
    ensures Expand(bindings, t, v6).Ok? <==> forall i :: 0 <= i < |bindings| ==> !Unfit(bindings[i], t)
  {
    if bindings != [] {
      assert forall i :: 0 < i < |bindings| ==> bindings[i] == bindings[1..][i - 1];
      assert forall i :: 0 <= i < |bindings[1..]| ==> bindings[1..][i] == bindings[i + 1];
      UnfitExact(bindings[0], t, v6);
      ExpandFits(bindings[1..], t, v6);
    }
  }

  lemma {:induction false} RulesFit(bindings: seq<Binding>, elems: seq<Template>, v6: bool)
    requires ValidBindings(bindings) && ValidTemplates(elems)
    ensures ZoneRules(bindings, elems, v6).Ok?
      <==> forall i, j :: 0 <= i < |bindings| && 0 <= j < |elems| ==> !Unfit(bindings[i], elems[j])
  {
    if elems != [] {
      assert forall i :: 0 < i < |elems| ==> elems[i] == elems[1..][i - 1];
      assert forall i :: 0 <= i < |elems[1..]| ==> elems[1..][i] == elems[i + 1];
      ExpandFits(bindings, elems[0], v6);
      RulesFit(bindings, elems[1..], v6);
    }
  }

  lemma {:induction false} FlatFits(zones: seq<Zone>, v6: bool)
    requires ValidZones(zones)
    ensures FlatRules(zones, v6).Ok? <==> forall i :: 0 <= i < |zones| ==> ZoneFits(zones[i])
  {
    if zones != [] {
      ValidTail(zones);
      RulesFit(zones[0].bindings, zones[0].elems, v6);
      FlatFits(zones[1..], v6);
      assert forall i :: 0 < i < |zones| ==> zones[i] == zones[1..][i - 1];
      assert forall i :: 0 <= i < |zones[1..]| ==> zones[1..][i] == zones[i + 1];
    }
  }

  /** An unbound default zone stands in the list. */
  predicate UnboundDefault(zones: seq<Zone>, defaultZone: string) {
    exists i :: 0 <= i < |zones| && zones[i].bindings == [] && zones[i].name == defaultZone
  }

  /** Two bound zones hold conditions that the import will not tell apart. */
  ghost predicate BoundShare(zones: seq<Zone>)
    requires ValidZones(zones)
  {
    exists i, j :: 0 <= i < j < |zones| && ZonesShare(zones[i], zones[j])
  }

  ghost predicate ZonesShare(a: Zone, b: Zone)
    requires ValidZone(a) && ValidZone(b)
  {
    exists m, n :: 0 <= m < |a.bindings| && 0 <= n < |b.bindings| && MayShare(a.bindings[m], b.bindings[n])
  }

  lemma ZonesShareExact(a: Zone, b: Zone)
    requires ValidZone(a) && ValidZone(b)
    ensures ZonesOverlap(a, b) <==> ZonesShare(a, b)
  {
    if ZonesOverlap(a, b) {
      var m, n :| 0 <= m < |a.bindings| && 0 <= n < |b.bindings| && Overlap(a.bindings[m], b.bindings[n]);
      MayShareExact(a.bindings[m], b.bindings[n]);
    }
    if ZonesShare(a, b) {
      var m, n :| 0 <= m < |a.bindings| && 0 <= n < |b.bindings| && MayShare(a.bindings[m], b.bindings[n]);
      MayShareExact(a.bindings[m], b.bindings[n]);
    }
  }

  lemma {:induction false} SelectedIff(zones: seq<Zone>, defaultZone: string, bound: nat)
    requires bound > 0
    ensures ActiveZones(zones, defaultZone, bound).Ok? <==> !UnboundDefault(zones, defaultZone)
  {
    if zones != [] {
      var n := |zones| - 1;
      SelectedIff(zones[..n], defaultZone, bound);
      assert forall i :: 0 <= i < n ==> zones[..n][i] == zones[i];
    }
  }

  /** The selection keeps the bound zones in order, so the shares and misfits among them. */
  lemma {:induction false} SelectedSame(zones: seq<Zone>, defaultZone: string, bound: nat)
    requires ValidZones(zones) && bound > 0 && ActiveZones(zones, defaultZone, bound).Ok?
    ensures var active := ActiveZones(zones, defaultZone, bound).value;
      && ValidZones(active) && (forall z :: z in active <==> z in zones && z.bindings != [])
      && (BoundShare(active) <==> BoundShare(zones))
  {
    if zones != [] {
      var n := |zones| - 1;
      ValidInit(zones);
      SelectedSame(zones[..n], defaultZone, bound);
      var active := ActiveZones(zones[..n], defaultZone, bound).value;
      assert zones == zones[..n] + [zones[n]];
      ShareSnoc(zones[..n], zones[n]);
      ShareSnoc(active, zones[n]);
      if zones[n].bindings == [] {
        assert forall z :: z in zones <==> z in zones[..n] || z == zones[n];
      } else {
        assert (exists z :: z in active && ZonesShare(z, zones[n])) <==> (exists z :: z in zones[..n] && ZonesShare(z, zones[n]));
      }
    }
  }

  lemma ShareSnoc(zones: seq<Zone>, z: Zone)
    requires ValidZones(zones) && ValidZone(z)
    ensures ValidZones(zones + [z])
    ensures forall y :: y in zones ==> ValidZone(y)
    ensures BoundShare(zones + [z]) <==> BoundShare(zones) || exists y :: y in zones && ZonesShare(y, z)
    ensures z.bindings == [] ==> (BoundShare(zones + [z]) <==> BoundShare(zones))
  {
    var all := zones + [z];
    assert forall i :: 0 <= i < |zones| ==> all[i] == zones[i];
    assert all[|zones|] == z;
    if BoundShare(zones) {
      var i, j :| 0 <= i < j < |zones| && ZonesShare(zones[i], zones[j]);
      assert ZonesShare(all[i], all[j]);
    }
    if y :| y in zones && ZonesShare(y, z) {
      var i :| 0 <= i < |zones| && zones[i] == y;
      assert ZonesShare(all[i], all[|zones|]);
    }
    if BoundShare(all) {
      var i, j :| 0 <= i < j < |all| && ZonesShare(all[i], all[j]);
      assert all[i] in zones;
    }
  }

  lemma OverlapFreeIff(zones: seq<Zone>)
    requires ValidZones(zones)
    ensures OverlapFree(zones) <==> !BoundShare(zones)
  {
    forall i, j | 0 <= i < j < |zones| ensures ZonesOverlap(zones[i], zones[j]) <==> ZonesShare(zones[i], zones[j]) {
      ZonesShareExact(zones[i], zones[j]);
    }
  }

  /** Where something is bound, a layout is refused exactly when an unbound default zone stands
      beside, two zones hold conditions that the import will not tell apart, or an element cannot
      be restricted to a condition of its zone. */
  lemma RefusedIff(zones: seq<Zone>, defaultZone: string, v6: bool)
    requires ValidZones(zones) && !NothingBound(zones)
    ensures Staged(zones, defaultZone, v6).Err?
      <==> UnboundDefault(zones, defaultZone) || BoundShare(zones) || exists i :: 0 <= i < |zones| && !ZoneFits(zones[i])
  {
    var bound := BoundCount(zones);
    BoundNone(zones);
    SelectedIff(zones, defaultZone, bound);
    if !UnboundDefault(zones, defaultZone) {
      SelectedSame(zones, defaultZone, bound);
      var active := ActiveZones(zones, defaultZone, bound).value;
      OverlapFreeIff(active);
      FlatFits(active, v6);
      FitsAmong(active, zones);
    }
  }

  lemma FitsAmong(active: seq<Zone>, zones: seq<Zone>)
    requires ValidZones(zones) && ValidZones(active) && forall z :: z in active <==> z in zones && z.bindings != []
    ensures (forall i :: 0 <= i < |active| ==> ZoneFits(active[i])) <==> forall i :: 0 <= i < |zones| ==> ZoneFits(zones[i])
  {
    if forall i :: 0 <= i < |active| ==> ZoneFits(active[i]) {
      forall i | 0 <= i < |zones| ensures ZoneFits(zones[i]) {
        if zones[i].bindings != [] {
          assert zones[i] in active;
          var j :| 0 <= j < |active| && active[j] == zones[i];
        }
      }
    }
    if forall i :: 0 <= i < |zones| ==> ZoneFits(zones[i]) {
      forall i | 0 <= i < |active| ensures ZoneFits(active[i]) {
        assert active[i] in zones;
        var j :| 0 <= j < |zones| && zones[j] == active[i];
      }
    }
  }

  // ---- what else a rule carries ---------------------------------------------------------------------

  /** The rule says about action, log and comment what the element says. */
  predicate Carries(r: Rule, t: Template) {
    r.action == t.action && r.log == t.log && r.comment == t.comment && r.id == ""
  }

  ghost predicate FromElements(rules: seq<Rule>, elems: seq<Template>) {
    forall i :: 0 <= i < |rules| ==> CarriesOne(rules[i], elems)
  }

  predicate CarriesOne(r: Rule, elems: seq<Template>) {
    exists j :: 0 <= j < |elems| && Carries(r, elems[j])
  }

  lemma {:induction false} ExpandCarries(bindings: seq<Binding>, t: Template, v6: bool)
    requires ValidBindings(bindings) && t.Valid() && Expand(bindings, t, v6).Ok?
    ensures var rules := Expand(bindings, t, v6).value; forall i :: 0 <= i < |rules| ==> Carries(rules[i], t)
  {
    if bindings != [] {
      assert forall i :: 0 < i < |bindings| ==> bindings[i] == bindings[1..][i - 1];
      ExpandCarries(bindings[1..], t, v6);
    }
  }

  /** Every rule staged for a zone carries the log flag and the comment of one of its elements. */
  lemma {:induction false} ZoneCarries(bindings: seq<Binding>, elems: seq<Template>, v6: bool)
    requires ValidBindings(bindings) && ValidTemplates(elems) && ZoneRules(bindings, elems, v6).Ok?
    ensures FromElements(ZoneRules(bindings, elems, v6).value, elems)
  {
    if elems != [] {
      assert forall i :: 0 < i < |elems| ==> elems[i] == elems[1..][i - 1];
      ExpandCarries(bindings, elems[0], v6);
      ZoneCarries(bindings, elems[1..], v6);
      CarriedCons(Expand(bindings, elems[0], v6).value, ZoneRules(bindings, elems[1..], v6).value, elems);
    }
  }

  lemma CarriedCons(own: seq<Rule>, rest: seq<Rule>, elems: seq<Template>)
    requires elems != [] && FromElements(rest, elems[1..]) && forall i :: 0 <= i < |own| ==> Carries(own[i], elems[0])
    ensures FromElements(own + rest, elems)
  {
    forall i | 0 <= i < |own| ensures CarriesOne(own[i], elems) {
      assert Carries(own[i], elems[0]);
    }
    forall i | 0 <= i < |rest| ensures CarriesOne(rest[i], elems) {
      var j :| 0 <= j < |elems[1..]| && Carries(rest[i], elems[1..][j]);
      assert Carries(rest[i], elems[j + 1]);
    }
  }
}
