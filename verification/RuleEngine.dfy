/** Adding, inserting and deleting rules in one family's list. */
module RuleEngine {
  import opened Bytes
  import opened Rules
  import opened AddressText
  import opened Store
  import opened Merge
  import opened FirstMatch
  import opened InPlace
  import opened ThreatBans

  // ---- adjacent app groups --------------------------------------------------------------------

  /** An endpoint as displayed: a set name or an address, the wildcard as a prefix of length zero. */
  function PlaceText(a: AddrSpec, v6: bool): string {
    if a.setName != "" then "set " + a.setName else IpText(a.ip, v6)
  }

  /** Destination, source and apps of a rule, as text. */
  datatype Group = Group(dst: string, src: string, dapp: string, sapp: string) {
    predicate NoApps() {
      dapp == "" && sapp == ""
    }
  }

  const NO_GROUP: Group := Group("", "", "", "")

  function GroupOf(r: Rule, v6: bool): Group {
    Group(PlaceText(r.dst, v6), PlaceText(r.src, v6), r.dapp, r.sapp)
  }

  /** Inserting at s would separate two neighbours of one app group. */
  predicate Splits(list: seq<Rule>, s: nat, v6: bool)
    requires s < |list|
  {
    s > 0 && !GroupOf(list[s], v6).NoApps() && GroupOf(list[s - 1], v6) == GroupOf(list[s], v6)
  }

  /** The first slot at or after from that splits no group. */
  function Slot(list: seq<Rule>, from: nat, v6: bool): (s: Option<nat>)
    requires from <= |list|
    ensures s.Some? ==> from <= s.value < |list| && !Splits(list, s.value, v6)
    ensures forall i :: from <= i < |list| && (s.None? || i < s.value) ==> Splits(list, i, v6)
    decreases |list| - from
  {
    if from == |list| then None
    else if !Splits(list, from, v6) then Some(from)
    else Slot(list, from + 1, v6)
  }

  // ---- what one command does --------------------------------------------------------------------

  datatype Outcome = Added | Updated | SkipAdd | Inserted | SkipInsert | Deleted | NotFound

  /** A delete matches a stored rule that is equal, or equal up to a comment it did not name. */
  predicate Deletable(stored: Rule, nr: Rule) {
    Match(stored, nr) == MatchExact || (Match(stored, nr) == MatchComment && nr.comment == "")
  }

  /** Append, replacement in place, single removal, insertion at the slot, or no change. */
  function Engine(list: seq<Rule>, nr: Rule, pos: nat, remove: bool): (seq<Rule>, Outcome)
    requires pos <= |list|
  {
    var k := Find(list, nr);
    var slot := if pos == 0 then None else Slot(list, pos - 1, nr.v6);
    if slot.Some? then
      if k.Some? then (list, SkipInsert) else (list[..slot.value] + [nr] + list[slot.value..], Inserted)
    else if remove then
      if k.Some? && Deletable(list[k.value], nr) then (list[..k.value] + list[k.value + 1..], Deleted) else (list, NotFound)
    else
      match k
      case None => (list + [nr], Added)
      case Some(j) => if Match(list[j], nr) == MatchExact then (list, SkipAdd) else (list[j := nr], Updated)
  }

  // ---- the walk ---------------------------------------------------------------------------------

  /** The variables of the single pass over the list. */
  datatype Walk = Walk(
    newrules: seq<Rule>, found: bool, modified: bool, inserted: bool, matches: nat, count: nat, pos: nat, last: Group)

  const START: Walk := Walk([], false, false, false, 0, 1, 0, NO_GROUP)

  /** At the requested slot: insert, or slide on past a group. */
  function PlaceNew(w: Walk, current: Group, nr: Rule): Walk {
    if w.count != w.pos then w
    else if (w.last.NoApps() && w.count > 1) || current.NoApps() || w.last != current then
      w.(inserted := true, newrules := w.newrules + [nr], last := NO_GROUP)
    else w.(pos := w.pos + 1)
  }

  /** One stored rule: kept, dropped, or replaced by the new one. */
  function Visit(w: Walk, r: Rule, nr: Rule, remove: bool): Walk {
    var ret := Match(r, nr);
    var w1 := if ret != MatchNone then w.(matches := w.matches + 1) else w;
    if ret == MatchExact && !w1.found && !w1.inserted then
      w1.(found := true, newrules := if remove then w1.newrules else w1.newrules + [nr])
    else if ret == MatchComment && remove && nr.comment == "" then w1.(found := true)
    else if (ret == MatchComment || ret == MatchAction) && !remove && !w1.inserted then
      w1.(found := true, modified := true, newrules := w1.newrules + [nr])
    else w1.(newrules := w1.newrules + [r])
  }

  function StepOne(w: Walk, r: Rule, nr: Rule, remove: bool): Walk {
    var w1 := PlaceNew(w, GroupOf(r, nr.v6), nr);
    Visit(w1.(last := GroupOf(r, nr.v6), count := w1.count + 1), r, nr, remove)
  }

  /** The rules before i, with the new rule in place of its tuple or the deleted one left out. */
  function Rewritten(list: seq<Rule>, k: Option<nat>, nr: Rule, remove: bool, i: nat): seq<Rule>
    requires i <= |list| && (k.Some? ==> k.value < |list|)
  {
    if k.None? || k.value >= i then list[..i]
    else if !remove then list[..i][k.value := nr]
    else if Deletable(list[k.value], nr) then list[..k.value] + list[k.value + 1..i]
    else list[..i]
  }

  /** Where the walk stands before position i. */
  ghost predicate Walked(list: seq<Rule>, nr: Rule, pos: nat, remove: bool, i: nat, w: Walk)
    requires pos <= |list| && i <= |list|
  {
    var k := Find(list, nr);
    var slot := if pos == 0 then None else Slot(list, pos - 1, nr.v6);
    var seen := k.Some? && k.value < i;
    && w.count == i + 1
    && (w.matches > 0 <==> seen)
    && (i == 0 ==> w.last == NO_GROUP) && (i > 0 ==> w.last == GroupOf(list[i - 1], nr.v6))
    && (w.inserted <==> slot.Some? && slot.value < i) && (w.inserted ==> w.pos < w.count)
    && (!w.inserted ==>
          && w.pos == (if pos > 0 && i >= pos then i + 1 else pos)
          && w.newrules == Rewritten(list, k, nr, remove, i)
          && (w.found <==> seen && (remove ==> Deletable(list[k.value], nr)))
          && (w.modified <==> seen && !remove && Match(list[k.value], nr) != MatchExact))
    && (w.inserted && !seen ==> w.newrules == list[..slot.value] + [nr] + list[slot.value..i])
  }

  lemma OnlyMatch(list: seq<Rule>, nr: Rule, i: nat)
    requires TuplesUnique(list) && i < |list|
    ensures Match(list[i], nr) != MatchNone <==> Find(list, nr) == Some(i)
  {
    var k := Find(list, nr);
    TupleEquivalence(list[i], nr, nr);
    if SameTuple(list[i], nr) && k.Some? && k.value != i {
      TupleEquivalence(list[i], nr, list[k.value]);
      TupleEquivalence(list[k.value], nr, list[i]);
      assert false;
    }
  }

  /** Whether the walk inserts at position i. */
  lemma PlaceStep(list: seq<Rule>, nr: Rule, pos: nat, remove: bool, i: nat, w: Walk)
    requires pos <= |list| && i < |list| && (remove ==> pos == 0) && Walked(list, nr, pos, remove, i, w)
    ensures var slot := if pos == 0 then None else Slot(list, pos - 1, nr.v6);
      var w1 := PlaceNew(w, GroupOf(list[i], nr.v6), nr);
      && (w1.inserted <==> slot.Some? && slot.value <= i)
      && (w1.inserted ==> w1.pos <= w1.count)
      && w1.count == w.count && w1.matches == w.matches && w1.found == w.found && w1.modified == w.modified
      && (slot == Some(i) ==> w1.newrules == w.newrules + [nr])
      && (slot != Some(i) ==> w1.newrules == w.newrules)
      && (!w1.inserted ==> w1.pos == if pos > 0 && i + 1 >= pos then i + 2 else pos)
  {
    var current := GroupOf(list[i], nr.v6);
    assert Splits(list, i, nr.v6) <==> !((w.last.NoApps() && w.count > 1) || current.NoApps() || w.last != current);
  }

  lemma RewrittenStep(list: seq<Rule>, k: Option<nat>, nr: Rule, remove: bool, i: nat)
    requires i < |list| && (k.Some? ==> k.value < |list|)
    ensures Rewritten(list, k, nr, remove, i + 1)
         == if k != Some(i) then Rewritten(list, k, nr, remove, i) + [list[i]]
            else if !remove then Rewritten(list, k, nr, remove, i) + [nr]
            else if Deletable(list[i], nr) then Rewritten(list, k, nr, remove, i)
            else Rewritten(list, k, nr, remove, i) + [list[i]]
  {
    assert list[..i + 1] == list[..i] + [list[i]];
    if k.Some? && k.value < i {
      assert list[k.value + 1..i + 1] == list[k.value + 1..i] + [list[i]];
    } else if k == Some(i) {
      assert list[i + 1..i + 1] == [] && list[..i] + [] == list[..i];
    }
  }

  /** One stored rule, before anything has been inserted. */
  lemma VisitStep(list: seq<Rule>, nr: Rule, remove: bool, i: nat, w: Walk)
    requires i < |list| && TuplesUnique(list) && !w.inserted
    requires var k := Find(list, nr);
      var seen := k.Some? && k.value < i;
      && w.newrules == Rewritten(list, k, nr, remove, i)
      && (w.found <==> seen && (remove ==> Deletable(list[k.value], nr)))
      && (w.modified <==> seen && !remove && Match(list[k.value], nr) != MatchExact)
    ensures var k := Find(list, nr);
      var seen := k.Some? && k.value < i + 1;
      var v := Visit(w, list[i], nr, remove);
      && v.newrules == Rewritten(list, k, nr, remove, i + 1)
      && (v.found <==> seen && (remove ==> Deletable(list[k.value], nr)))
      && (v.modified <==> seen && !remove && Match(list[k.value], nr) != MatchExact)
  {
    OnlyMatch(list, nr, i);
    RewrittenStep(list, Find(list, nr), nr, remove, i);
  }

  /** What a visit changes in any case. */
  lemma VisitFrame(w: Walk, r: Rule, nr: Rule, remove: bool)
    ensures var v := Visit(w, r, nr, remove);
      && v.count == w.count && v.pos == w.pos && v.last == w.last && v.inserted == w.inserted
      && v.matches == w.matches + (if Match(r, nr) != MatchNone then 1 else 0)
      && (w.inserted && !remove && Match(r, nr) == MatchNone ==> v.newrules == w.newrules + [r])
  {
  }

  lemma WalkStep(list: seq<Rule>, nr: Rule, pos: nat, remove: bool, i: nat, w: Walk)
    requires pos <= |list| && i < |list| && (remove ==> pos == 0) && TuplesUnique(list)
    requires Walked(list, nr, pos, remove, i, w)
    ensures Walked(list, nr, pos, remove, i + 1, StepOne(w, list[i], nr, remove))
  {
    PlaceStep(list, nr, pos, remove, i, w);
    OnlyMatch(list, nr, i);
    var p := PlaceNew(w, GroupOf(list[i], nr.v6), nr);
    var q := p.(last := GroupOf(list[i], nr.v6), count := p.count + 1);
    VisitFrame(q, list[i], nr, remove);
    if q.inserted {
      InsertedStep(list, nr, Slot(list, pos - 1, nr.v6).value, i);
    } else {
      VisitStep(list, nr, remove, i, q);
    }
  }

  lemma InsertedStep(list: seq<Rule>, nr: Rule, s: nat, i: nat)
    requires s <= i < |list|
    ensures list[..s] + [nr] + list[s..i + 1] == (list[..s] + [nr] + list[s..i]) + [list[i]]
    ensures s == i ==> list[..s] + [nr] + list[s..i] == list[..i] + [nr]
  {
    assert list[s..i + 1] == list[s..i] + [list[i]];
  }

  method WalkList(list: seq<Rule>, nr: Rule, pos: nat, remove: bool) returns (w: Walk)
    requires TuplesUnique(list) && pos <= |list| && (remove ==> pos == 0)
    ensures Walked(list, nr, pos, remove, |list|, w)
  {
    w := START.(pos := pos);
    for i := 0 to |list|
      invariant Walked(list, nr, pos, remove, i, w)
    {
      WalkStep(list, nr, pos, remove, i, w);
      w := StepOne(w, list[i], nr, remove);
    }
  }

  /** Walks the list once. On a tuple-unique list it does exactly what Engine says. */
  method SetRuleEngine(list: seq<Rule>, nr: Rule, pos: nat, remove: bool) returns (out: seq<Rule>, oc: Outcome)
    requires TuplesUnique(list) && pos <= |list| && (remove ==> pos == 0)
    ensures (out, oc) == Engine(list, nr, pos, remove)
  {
    var w := WalkList(list, nr, pos, remove);
    WalkEnd(list, nr, pos, remove, w);
    if w.inserted {
      if w.matches > 0 {
        return list, SkipInsert;
      }
      return w.newrules, Inserted;
    }
    if !w.found && remove {
      return list, NotFound;
    }
    if w.found && !remove && !w.modified {
      return list, SkipAdd;
    }
    if remove {
      return w.newrules, Deleted;
    }
    if w.modified {
      return w.newrules, Updated;
    }
    return w.newrules + [nr], Added;
  }

  lemma WalkEnd(list: seq<Rule>, nr: Rule, pos: nat, remove: bool, w: Walk)
    requires pos <= |list| && (remove ==> pos == 0) && Walked(list, nr, pos, remove, |list|, w)
    ensures Engine(list, nr, pos, remove)
         == if w.inserted then (if w.matches > 0 then (list, SkipInsert) else (w.newrules, Inserted))
            else if !w.found && remove then (list, NotFound)
            else if w.found && !remove && !w.modified then (list, SkipAdd)
            else if remove then (w.newrules, Deleted)
            else if w.modified then (w.newrules, Updated)
            else (w.newrules + [nr], Added)
  {
    assert list[..|list|] == list;
    var k := Find(list, nr);
    if k.Some? {
      assert list[k.value + 1..|list|] == list[k.value + 1..];
    }
    if pos > 0 && Slot(list, pos - 1, nr.v6).Some? {
      var s := Slot(list, pos - 1, nr.v6).value;
      assert list[s..|list|] == list[s..];
    }
  }

  // ---- what every command keeps ---------------------------------------------------------------

  lemma FindNone(list: seq<Rule>, nr: Rule, i: nat)
    requires Find(list, nr).None? && i < |list|
    ensures !SameTuple(list[i], nr) && !SameTuple(nr, list[i])
  {
    TupleEquivalence(nr, list[i], nr);
  }

  lemma InsertUnique(list: seq<Rule>, nr: Rule, s: nat)
    requires TuplesUnique(list) && Find(list, nr).None? && s <= |list|
    ensures TuplesUnique(list[..s] + [nr] + list[s..])
  {
    var out := list[..s] + [nr] + list[s..];
    forall i, j | 0 <= i < j < |out| ensures !SameTuple(out[i], out[j]) {
      if i == s {
        FindNone(list, nr, j - 1);
      } else if j == s {
        FindNone(list, nr, i);
      }
    }
  }

  lemma ReplaceUnique(list: seq<Rule>, nr: Rule, k: nat)
    requires TuplesUnique(list) && k < |list| && SameTuple(nr, list[k])
    ensures TuplesUnique(list[k := nr])
  {
    var out := list[k := nr];
    forall i, j | 0 <= i < j < |out| ensures !SameTuple(out[i], out[j]) {
      TupleEquivalence(nr, list[k], nr);
      if i == k {
        TupleEquivalence(list[k], nr, out[j]);
      } else if j == k {
        TupleEquivalence(out[i], nr, list[k]);
      }
    }
  }

  /** No command ever leaves two rules of one tuple. */
  lemma EngineKeepsUnique(list: seq<Rule>, nr: Rule, pos: nat, remove: bool)
    requires TuplesUnique(list) && pos <= |list|
    ensures TuplesUnique(Engine(list, nr, pos, remove).0)
  {
    var k := Find(list, nr);
    var slot := if pos == 0 then None else Slot(list, pos - 1, nr.v6);
    if k.None? {
      assert list + [nr] == list[..|list|] + [nr] + list[|list|..];
      InsertUnique(list, nr, if slot.Some? then slot.value else |list|);
    } else {
      ReplaceUnique(list, nr, k.value);
    }
  }

  /** An insertion keeps every app group's neighbours side by side. */
  lemma InsertKeepsGroups(list: seq<Rule>, nr: Rule, pos: nat, i: nat)
    requires 0 < pos <= |list| && Engine(list, nr, pos, false).1 == Inserted
    requires 0 < i < |list| && Splits(list, i, nr.v6)
    ensures var out := Engine(list, nr, pos, false).0;
      exists j :: 0 < j < |out| && out[j - 1] == list[i - 1] && out[j] == list[i]
  {
    var out, s := Engine(list, nr, pos, false).0, Slot(list, pos - 1, nr.v6).value;
    var j := if i < s then i else i + 1;
    assert i != s;
    assert out[j - 1] == list[i - 1] && out[j] == list[i];
  }

  lemma DeleteAt(list: seq<Rule>, nr: Rule, s: nat)
    requires s <= |list| && TuplesUnique(list[..s] + [nr] + list[s..])
    ensures Engine(list[..s] + [nr] + list[s..], nr, 0, true) == (list, Deleted)
  {
    var out := list[..s] + [nr] + list[s..];
    TupleEquivalence(nr, nr, nr);
    assert out[s] == nr;
    OnlyMatch(out, nr, s);
    assert out[..s] == list[..s] && out[s + 1..] == list[s..];
    assert list[..s] + list[s..] == list;
  }

  /** Deleting a rule that was just added, appended or inserted, restores the list. */
  lemma AddThenDelete(list: seq<Rule>, nr: Rule, pos: nat)
    requires TuplesUnique(list) && pos <= |list|
    requires Engine(list, nr, pos, false).1 == Added || Engine(list, nr, pos, false).1 == Inserted
    ensures Engine(Engine(list, nr, pos, false).0, nr, 0, true) == (list, Deleted)
  {
    var s := if Engine(list, nr, pos, false).1 == Inserted then Slot(list, pos - 1, nr.v6).value else |list|;
    assert list + [nr] == list[..|list|] + [nr] + list[|list|..];
    EngineKeepsUnique(list, nr, pos, false);
    DeleteAt(list, nr, s);
  }

  // ---- one family's half of a command --------------------------------------------------------

  predicate NoApps(r: Rule) {
    r.dapp == "" && r.sapp == ""
  }

  /** A profile name stands for the ports of its side. */
  function SideText(app: string, ports: seq<PortRange>): string {
    if app != "" then app else PortsText(ports)
  }

  function WhereText(r: Rule): (s: string)
    ensures s != ""
  {
    if r.ifaceIn == [] && r.ifaceOut == [] then " " + DirText(r.dir)
    else
      (if r.ifaceIn != [] then " in_" + NameText(r.ifaceIn) else "")
      + (if r.ifaceOut != [] then " out_" + NameText(r.ifaceOut) else "")
  }

  /** What ties the rules of one app command together, as one text; rules without apps have none. */
  function AppTupleOf(r: Rule): string {
    if NoApps(r) then ""
    else
      SideText(r.dapp, r.dst.ports) + " " + IpText(r.dst.ip, r.v6) + " "
      + SideText(r.sapp, r.src.ports) + " " + IpText(r.src.ip, r.v6) + WhereText(r)
  }

  /** Profiles are words, and texts that are no address have no spaces. */
  predicate Worded(r: Rule) {
    && (r.dapp != "" ==> ProfileWord(r.dapp)) && (r.sapp != "" ==> ProfileWord(r.sapp))
    && (r.dst.ip.BadIp? ==> Without(r.dst.ip.text, ' ')) && (r.src.ip.BadIp? ==> Without(r.src.ip.text, ' '))
  }

  /** The same profile, or none and the same ports. */
  predicate SameSide(app: string, ports: seq<PortRange>, app2: string, ports2: seq<PortRange>) {
    app == app2 && (app == "" ==> PortsText(ports) == PortsText(ports2))
  }

  predicate SameAppCommand(r: Rule, s: Rule) {
    && SameSide(r.dapp, r.dst.ports, s.dapp, s.dst.ports) && SameSide(r.sapp, r.src.ports, s.sapp, s.src.ports)
    && IpText(r.dst.ip, r.v6) == IpText(s.dst.ip, s.v6) && IpText(r.src.ip, r.v6) == IpText(s.src.ip, s.v6)
    && WhereText(r) == WhereText(s)
  }

  lemma SideExact(app: string, ports: seq<PortRange>, app2: string, ports2: seq<PortRange>)
    requires (app != "" ==> ProfileWord(app)) && (app2 != "" ==> ProfileWord(app2))
    ensures SideText(app, ports) == SideText(app2, ports2) <==> SameSide(app, ports, app2, ports2)
    ensures Without(SideText(app, ports), ' ')
  {
    PortsNoSpace(ports);
    if app != "" {
      PortsNoWord(ports2, app);
    }
    if app2 != "" {
      PortsNoWord(ports, app2);
    }
  }

  /** The text behind the first word of an app tuple, one word after the other. */
  function WhereTail(r: Rule): string {
    WhereText(r)[1..]
  }

  function SourceTail(r: Rule): string {
    IpText(r.src.ip, r.v6) + " " + WhereTail(r)
  }

  function AppTail(r: Rule): string {
    SideText(r.sapp, r.src.ports) + " " + SourceTail(r)
  }

  function PlaceTail(r: Rule): string {
    IpText(r.dst.ip, r.v6) + " " + AppTail(r)
  }

  lemma TupleWords(r: Rule)
    requires !NoApps(r)
    ensures AppTupleOf(r) == SideText(r.dapp, r.dst.ports) + " " + PlaceTail(r)
    ensures WhereText(r) == " " + WhereTail(r)
  {
    assert WhereText(r)[0] == ' ';
    assert WhereText(r) == [WhereText(r)[0]] + WhereText(r)[1..];
  }

  /** Over profiles of one word that are not spelled like ports, the text says which command made
      a rule: profile or ports, address and place of both sides. */
  lemma AppTextExact(r: Rule, s: Rule)
    requires !NoApps(r) && !NoApps(s) && Worded(r) && Worded(s)
    ensures AppTupleOf(r) == AppTupleOf(s) <==> SameAppCommand(r, s)
  {
    TupleWords(r);
    TupleWords(s);
    SideExact(r.dapp, r.dst.ports, s.dapp, s.dst.ports);
    SideExact(s.dapp, s.dst.ports, r.dapp, r.dst.ports);
    if AppTupleOf(r) == AppTupleOf(s) {
      SplitAtSpace(SideText(r.dapp, r.dst.ports), PlaceTail(r), SideText(s.dapp, s.dst.ports), PlaceTail(s));
      TailsExact(r, s);
    }
  }

  lemma TailsExact(r: Rule, s: Rule)
    requires Worded(r) && Worded(s) && PlaceTail(r) == PlaceTail(s)
    ensures SameSide(r.sapp, r.src.ports, s.sapp, s.src.ports)
    ensures IpText(r.dst.ip, r.v6) == IpText(s.dst.ip, s.v6) && IpText(r.src.ip, r.v6) == IpText(s.src.ip, s.v6)
    ensures WhereTail(r) == WhereTail(s)
  {
    IpNoSpace(r.dst.ip, r.v6);
    IpNoSpace(s.dst.ip, s.v6);
    SplitAtSpace(IpText(r.dst.ip, r.v6), AppTail(r), IpText(s.dst.ip, s.v6), AppTail(s));
    SideExact(r.sapp, r.src.ports, s.sapp, s.src.ports);
    SideExact(s.sapp, s.src.ports, r.sapp, r.src.ports);
    SplitAtSpace(SideText(r.sapp, r.src.ports), SourceTail(r), SideText(s.sapp, s.src.ports), SourceTail(s));
    IpNoSpace(r.src.ip, r.v6);
    IpNoSpace(s.src.ip, s.v6);
    SplitAtSpace(IpText(r.src.ip, r.v6), WhereTail(r), IpText(s.src.ip, s.v6), WhereTail(s));
  }

  function InGroup(t: string): Rule -> bool {
    (r: Rule) => AppTupleOf(r) == t
  }

  function OutOfGroup(t: string): Rule -> bool {
    (r: Rule) => AppTupleOf(r) != t
  }

  /** The stored rules of the command's app tuple, with the command's action and log type. */
  function Stamped(rules: seq<Rule>, nr: Rule): seq<Rule> {
    seq(|rules|, i requires 0 <= i < |rules| => rules[i].(action := nr.action, log := nr.log))
  }

  /** Deletes one target after the other and stops at the first that is not found. */
  function DeleteAll(list: seq<Rule>, targets: seq<Rule>): (seq<Rule>, Outcome) {
    if targets == [] then (list, Deleted)
    else
      var (out, oc) := Engine(list, targets[0], 0, true);
      if oc == NotFound then (list, NotFound) else DeleteAll(out, targets[1..])
  }

  function Half(list: seq<Rule>, nr: Rule, pos: int, remove: bool): Result<(seq<Rule>, Outcome)> {
    if pos < 0 || pos > |list| || (pos > 0 && remove) then Err
    else if remove && !NoApps(nr) then
      var targets := Stamped(Filter(list, InGroup(AppTupleOf(nr))), nr);
      if targets == [] then Ok((list, NotFound)) else Ok(DeleteAll(list, targets))
    else Ok(Engine(list, nr, pos, remove))
  }

  method DeleteTargets(list: seq<Rule>, targets: seq<Rule>) returns (out: seq<Rule>, oc: Outcome)
    requires TuplesUnique(list)
    ensures (out, oc) == DeleteAll(list, targets) && TuplesUnique(out)
  {
    out, oc := list, Deleted;
    assert targets[0..] == targets;
    for i := 0 to |targets|
      invariant TuplesUnique(out) && oc == Deleted
      invariant DeleteAll(out, targets[i..]) == DeleteAll(list, targets)
    {
      assert targets[i..][1..] == targets[i + 1..];
      EngineKeepsUnique(out, targets[i], 0, true);
      var next, res := SetRuleEngine(out, targets[i], 0, true);
      if res == NotFound {
        return out, NotFound;
      }
      out := next;
    }
  }

  method ApplyHalf(list: seq<Rule>, nr: Rule, pos: int, remove: bool) returns (res: Result<(seq<Rule>, Outcome)>)
    requires TuplesUnique(list)
    ensures res == Half(list, nr, pos, remove)
    ensures res.Ok? ==> TuplesUnique(res.value.0)
  {
    if pos < 0 || pos > |list| || (pos > 0 && remove) {
      return Err;
    }
    var out, oc;
    if remove && !NoApps(nr) {
      var targets := Stamped(Filter(list, InGroup(AppTupleOf(nr))), nr);
      if targets == [] {
        return Ok((list, NotFound));
      }
      out, oc := DeleteTargets(list, targets);
    } else {
      EngineKeepsUnique(list, nr, pos, remove);
      out, oc := SetRuleEngine(list, nr, pos, remove);
    }
    res := Ok((out, oc));
  }

  /** An app delete that names the stored action and log type removes exactly the app's rules. */
  lemma AppDeleteRemovesGroup(list: seq<Rule>, nr: Rule)
    requires TuplesUnique(list) && !NoApps(nr)
    requires Filter(list, InGroup(AppTupleOf(nr))) != []
    requires forall r :: r in list && AppTupleOf(r) == AppTupleOf(nr) ==> r.action == nr.action && r.log == nr.log
    ensures Half(list, nr, 0, true) == Ok((Filter(list, OutOfGroup(AppTupleOf(nr))), Deleted))
  {
    var t := AppTupleOf(nr);
    var group := Filter(list, InGroup(t));
    FilterMembers(list, InGroup(t));
    assert Stamped(group, nr) == group by {
      forall i | 0 <= i < |group| ensures Stamped(group, nr)[i] == group[i] {
        assert group[i] in list;
      }
    }
    DeleteGroup(list, t);
  }

  function FirstIn(list: seq<Rule>, t: string, from: nat): (k: nat)
    requires from <= |list|
    requires exists i :: from <= i < |list| && AppTupleOf(list[i]) == t
    ensures from <= k < |list| && AppTupleOf(list[k]) == t
    ensures forall i :: from <= i < k ==> AppTupleOf(list[i]) != t
    decreases |list| - from
  {
    if AppTupleOf(list[from]) == t then from else FirstIn(list, t, from + 1)
  }

  lemma {:induction false} DeleteGroup(list: seq<Rule>, t: string)
    requires TuplesUnique(list)
    ensures DeleteAll(list, Filter(list, InGroup(t))) == (Filter(list, OutOfGroup(t)), Deleted)
    decreases |list|
  {
    FilterMembers(list, InGroup(t));
    var group := Filter(list, InGroup(t));
    if group == [] {
      forall r | r in list ensures OutOfGroup(t)(r) {
        assert InGroup(t)(r) ==> r in group;
      }
      FilterAll(list, OutOfGroup(t));
    } else {
      assert group[0] in list;
      var k := FirstIn(list, t, 0);
      var rest := list[..k] + list[k + 1..];
      RemoveFirst(list, k, t);
      DeleteStored(list, k);
      EngineKeepsUnique(list, list[k], 0, true);
      DeleteGroup(rest, t);
    }
  }

  lemma DeleteStored(list: seq<Rule>, k: nat)
    requires TuplesUnique(list) && k < |list|
    ensures Engine(list, list[k], 0, true) == (list[..k] + list[k + 1..], Deleted)
  {
    TupleEquivalence(list[k], list[k], list[k]);
    OnlyMatch(list, list[k], k);
  }

  /** Taking out the first rule of a group takes out its first element and nothing else. */
  lemma RemoveFirst(list: seq<Rule>, k: nat, t: string)
    requires k < |list| && AppTupleOf(list[k]) == t && forall i :: 0 <= i < k ==> AppTupleOf(list[i]) != t
    ensures var rest := list[..k] + list[k + 1..];
      && Filter(list, InGroup(t)) == [list[k]] + Filter(rest, InGroup(t))
      && Filter(list, OutOfGroup(t)) == Filter(rest, OutOfGroup(t))
  {
    var a, b := list[..k], list[k + 1..];
    assert list == a + ([list[k]] + b);
    forall y | y in a ensures !InGroup(t)(y) {
      var i :| 0 <= i < k && list[i] == y;
    }
    FilterTakeFirst(a, list[k], b, InGroup(t));
    FilterTakeDropped(a, list[k], b, OutOfGroup(t));
  }

  // ---- two spellings of everywhere ---------------------------------------------------------------

  /** A rule of the profile that accepts anything from the given source. */
  function AppRule(app: string, from: Ip): Rule {
    Rule("", Allow, In, NoRouteDir, [], [], Tcp, None, AddrSpec(from, [], ""), AddrSpec(AnyIp, [], ""),
         app, "", LogNone, "", 0, false, false)
  }

  lemma SameText(app: string)
    ensures GroupOf(AppRule(app, AnyIp), false) == GroupOf(AppRule(app, ANYWHERE4), false)
    ensures AppTupleOf(AppRule(app, AnyIp)) == AppTupleOf(AppRule(app, ANYWHERE4))
  {
    AnywhereText(false);
  }

  lemma TwoSpellings(app: string)
    requires app != ""
    ensures var list := [AppRule(app, AnyIp), AppRule(app, ANYWHERE4)];
      TuplesUnique(list) && Splits(list, 1, false)
  {
    SameText(app);
  }

  /** The rules of a profile from any source and from 0.0.0.0/0 are two tuples but one group: a
      rule inserted at the second goes behind them, and deleting the first deletes both. */
  lemma EverywhereIsOneGroup(app: string, nr: Rule)
    requires app != "" && !nr.v6
    requires !SameTuple(nr, AppRule(app, AnyIp)) && !SameTuple(nr, AppRule(app, ANYWHERE4))
    ensures var a, b := AppRule(app, AnyIp), AppRule(app, ANYWHERE4);
      && TuplesUnique([a, b])
      && Engine([a, b], nr, 2, false) == ([a, b] + [nr], Added)
      && Half([a, b], a, 0, true) == Ok(([], Deleted))
  {
    var a, b := AppRule(app, AnyIp), AppRule(app, ANYWHERE4);
    var list := [a, b];
    TwoSpellings(app);
    assert Slot(list, 1, false) == None by {
      assert Slot(list, 2, false) == None;
    }
    assert Find(list, nr) == None;
    SameText(app);
    assert Filter(list, OutOfGroup(AppTupleOf(a))) == [] by {
      FilterNone(list, OutOfGroup(AppTupleOf(a)));
    }
    FilterAll(list, InGroup(AppTupleOf(a)));
    AppDeleteRemovesGroup(list, a);
  }

  function BothApps(dapp: string, sapp: string): Rule {
    AppRule(dapp, AnyIp).(sapp := sapp)
  }

  /** A profile named "any" spells like the absence of one: deleting the rules of another profile
      takes its rules along. */
  lemma AppTupleCollides(sapp: string)
    requires sapp != ""
    ensures var a, b := BothApps("", sapp), BothApps("any", sapp);
      && TuplesUnique([a, b]) && a.dapp != b.dapp
      && Half([a, b], a, 0, true) == Ok(([], Deleted))
  {
    var a, b := BothApps("", sapp), BothApps("any", sapp);
    var list := [a, b];
    assert SideText("", []) == "any" == SideText("any", []);
    assert AppTupleOf(a) == AppTupleOf(b);
    FilterNone(list, OutOfGroup(AppTupleOf(a)));
    FilterAll(list, InGroup(AppTupleOf(a)));
    AppDeleteRemovesGroup(list, a);
  }

  // ---- sweeping -----------------------------------------------------------------------------

  function Unexpired(now: int): Rule -> bool {
    (r: Rule) => !r.Expired(now)
  }

  method KeepRules(rules: seq<Rule>, now: int) returns (out: seq<Rule>)
    ensures out == Filter(rules, Unexpired(now))
  {
    var cells := new Rule[|rules|](i requires 0 <= i < |rules| => rules[i]);
    assert cells[..] == rules;
    var n := KeepInPlace(cells, Unexpired(now));
    out := cells[..n];
  }

  function Swept(st: State, now: int): State {
    st.(rules4 := Filter(st.rules4, Unexpired(now)), rules6 := Filter(st.rules6, Unexpired(now)),
        bans := Filter(st.bans, KeepUnexpired(now)))
  }

  method SweepExpired(st: State, now: int) returns (out: State)
    ensures out == Swept(st, now)
  {
    var rules4 := KeepRules(st.rules4, now);
    var rules6 := KeepRules(st.rules6, now);
    var bans := Keep(st.bans, KeepUnexpired(now));
    out := st.(rules4 := rules4, rules6 := rules6, bans := bans);
  }

  lemma ExpiredDecidesNothing(r: Rule, swept: int, v6: bool, d: Direction, now: int, sets: SetFn, p: Packet)
    requires r.ValidAddrs() && swept <= now && r.Expired(swept)
    ensures Decide([r], v6, d, now, sets, p) == None
  {
    assert [r][1..] == [];
  }

  ghost predicate DecideAlike(a: seq<Rule>, b: seq<Rule>, v6: bool, d: Direction, now: int, sets: SetFn, p: Packet) {
    ValidRules(a) && ValidRules(b) && Decide(a, v6, d, now, sets, p) == Decide(b, v6, d, now, sets, p)
  }

  lemma SweepStep(kept: seq<Rule>, before: seq<Rule>, r: Rule, swept: int,
                  v6: bool, d: Direction, now: int, sets: SetFn, p: Packet)
    requires DecideAlike(kept, before, v6, d, now, sets, p) && r.ValidAddrs() && swept <= now
    ensures DecideAlike(kept + if Unexpired(swept)(r) then [r] else [], before + [r], v6, d, now, sets, p)
  {
    DecideConcat(before, [r], v6, d, now, sets, p);
    DecideConcat(kept, [r], v6, d, now, sets, p);
    if r.Expired(swept) {
      ExpiredDecidesNothing(r, swept, v6, d, now, sets, p);
      assert kept + [] == kept;
    }
  }

  /** Sweeping never changes which action a packet meets, now or later. */
  lemma SweepNeutral(rules: seq<Rule>, swept: int, v6: bool, d: Direction, now: int, sets: SetFn, p: Packet)
    requires ValidRules(rules) && swept <= now
    ensures DecideAlike(Filter(rules, Unexpired(swept)), rules, v6, d, now, sets, p)
  {
    var rel := (a: seq<Rule>, b: seq<Rule>) => DecideAlike(a, b, v6, d, now, sets, p);
    forall a, b, x | x in rules ensures KeepsOne(Unexpired(swept), rel, a, b, x) {
      if rel(a, b) {
        SweepStep(a, b, x, swept, v6, d, now, sets, p);
      }
    }
    FilterKeepsRelation(rules, Unexpired(swept), rel);
  }
}
