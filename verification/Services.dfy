/** Flattening firewalld services along their includes. */
module Services {
  import opened Rules

  datatype SvcPort = SvcPort(lo: nat, hi: nat, proto: PortProto)

  /** A service: its own matches, its destination per family, and the services it includes. */
  datatype Def = Def(
    ports: seq<SvcPort>, protos: seq<string>, dst4: Option<string>, dst6: Option<string>, includes: seq<string>)

  /** Parsed files, None for a file with an error, and the ports of names known elsewhere. */
  datatype Catalog = Catalog(files: map<string, Option<Def>>, known: string -> seq<SvcPort>) {
    /** A file's definition, or a fallback that includes nothing. */
    function Find(name: string): (d: Option<Def>)
      ensures d.Some? && d.value.includes != [] ==> name in files
    {
      if name in files then files[name]
      else if known(name) == [] then None
      else Some(Def(known(name), [], None, None, []))
    }
  }

  /** The parent keeps its destination or takes the include's; two different ones clash. */
  function JoinDst(a: Option<string>, b: Option<string>): Result<Option<string>> {
    if b.None? then Ok(a) else if a.None? then Ok(b) else if a == b then Ok(a) else Err
  }

  function Absorb(acc: Def, sub: Def): Result<Def> {
    match (JoinDst(acc.dst4, sub.dst4), JoinDst(acc.dst6, sub.dst6))
    case (Ok(d4), Ok(d6)) => Ok(acc.(ports := acc.ports + sub.ports, protos := acc.protos + sub.protos, dst4 := d4, dst6 := d6))
    case _ => Err
  }

  /** The known names that are not on the path: what every step into an include uses up. */
  function Fuel(c: Catalog, path: set<string>): nat {
    |c.files.Keys - path|
  }

  lemma FuelShrinks(c: Catalog, path: set<string>, name: string)
    requires name in c.files && name !in path
    ensures Fuel(c, path + {name}) < Fuel(c, path)
  {
    assert c.files.Keys - (path + {name}) == (c.files.Keys - path) - {name};
  }

  function Resolve(c: Catalog, name: string, path: set<string>): Result<Def>
    decreases Fuel(c, path), 0
  {
    if name in path then Err
    else
      match c.Find(name)
      case None => Err
      case Some(base) =>
        if base.includes == [] then Ok(base)
        else
          FuelShrinks(c, path, name);
          ResolveAll(c, base.includes, path + {name}, base)
  }

  function ResolveAll(c: Catalog, includes: seq<string>, path: set<string>, acc: Def): Result<Def>
    decreases Fuel(c, path), |includes|
  {
    if includes == [] then Ok(acc)
    else
      match Resolve(c, includes[0], path)
      case Err => Err
      case Ok(sub) =>
        match Absorb(acc, sub)
        case Err => Err
        case Ok(next) => ResolveAll(c, includes[1..], path, next)
  }

  class Resolver {
    const catalog: Catalog
    var stack: set<string>

    constructor (catalog: Catalog)
      ensures stack == {} && this.catalog == catalog
    {
      this.catalog := catalog;
      stack := {};
    }

    /** Pushes the name for the time of the call. It terminates on every include graph, and the
        stack is restored on every way out. */
    method ResolveService(name: string) returns (res: Result<Def>)
      modifies this
      ensures stack == old(stack)
      ensures res == Resolve(catalog, name, stack)
      decreases Fuel(catalog, stack), 0
    {
      if name in stack {
        return Err;
      }
      var base := catalog.Find(name);
      if base.None? {
        return Err;
      }
      if base.value.includes == [] {
        return Ok(base.value);
      }
      ghost var path := stack;
      FuelShrinks(catalog, path, name);
      stack := stack + {name};
      var out := base.value;
      var includes := base.value.includes;
      ghost var want := ResolveAll(catalog, includes, path + {name}, out);
      assert includes[0..] == includes;
      var failed := false;
      for i := 0 to |includes|
        invariant stack == path + {name}
        invariant failed ==> want == Err
        invariant !failed ==> ResolveAll(catalog, includes[i..], path + {name}, out) == want
      {
        if failed {
          continue;
        }
        assert includes[i..][1..] == includes[i + 1..];
        var sub := ResolveService(includes[i]);
        match sub {
          case Err => failed := true;
          case Ok(def) =>
            match Absorb(out, def) {
              case Err => failed := true;
              case Ok(next) => out := next;
            }
        }
      }
      stack := stack - {name};
      assert stack == path;
      res := if failed then Err else Ok(out);
    }
  }

  // ---- the include tree -----------------------------------------------------------------------

  datatype Tree = Node(def: Def, kids: seq<Tree>)

  /** t spells out everything name includes. */
  ghost predicate TreeOf(c: Catalog, t: Tree, name: string)
    decreases t
  {
    && c.Find(name) == Some(t.def) && |t.kids| == |t.def.includes|
    && forall i :: 0 <= i < |t.kids| ==> TreeOf(c, t.kids[i], t.def.includes[i])
  }

  /** The definitions of a tree, parents before their includes, includes in order. */
  function Preorder(t: Tree): seq<Def>
    decreases t, 1, 0
  {
    [t.def] + PreorderAll(t, 0)
  }

  function PreorderAll(t: Tree, from: nat): seq<Def>
    requires from <= |t.kids|
    decreases t, 0, |t.kids| - from
  {
    if from == |t.kids| then [] else Preorder(t.kids[from]) + PreorderAll(t, from + 1)
  }

  function AllPorts(defs: seq<Def>): seq<SvcPort> {
    if defs == [] then [] else defs[0].ports + AllPorts(defs[1..])
  }

  function AllProtos(defs: seq<Def>): seq<string> {
    if defs == [] then [] else defs[0].protos + AllProtos(defs[1..])
  }

  lemma {:induction false} AllConcat(a: seq<Def>, b: seq<Def>)
    ensures AllPorts(a + b) == AllPorts(a) + AllPorts(b)
    ensures AllProtos(a + b) == AllProtos(a) + AllProtos(b)
  {
    if a == [] {
      assert a + b == b;
    } else {
      assert (a + b)[1..] == a[1..] + b;
      AllConcat(a[1..], b);
    }
  }

  /** Trees of a list of names, in order. */
  ghost predicate TreesOf(c: Catalog, ts: seq<Tree>, names: seq<string>) {
    |ts| == |names| && forall i :: 0 <= i < |ts| ==> TreeOf(c, ts[i], names[i])
  }

  function Forest(ts: seq<Tree>): seq<Def> {
    if ts == [] then [] else Preorder(ts[0]) + Forest(ts[1..])
  }

  lemma {:induction false} KidsForest(t: Tree, from: nat)
    requires from <= |t.kids|
    ensures PreorderAll(t, from) == Forest(t.kids[from..])
    decreases |t.kids| - from
  {
    if from < |t.kids| {
      KidsForest(t, from + 1);
      assert t.kids[from..][1..] == t.kids[from + 1..];
    }
  }

  /** A resolved service lists the ports and protocols of its include tree in preorder. */
  lemma {:induction false} ResolvedPreorder(c: Catalog, name: string, path: set<string>) returns (t: Tree)
    requires Resolve(c, name, path).Ok?
    ensures TreeOf(c, t, name)
    ensures var r := Resolve(c, name, path).value; r.ports == AllPorts(Preorder(t)) && r.protos == AllProtos(Preorder(t))
    decreases Fuel(c, path), 0
  {
    var base := c.Find(name).value;
    if base.includes == [] {
      t := Node(base, []);
      assert [base][1..] == [];
      assert base.ports + [] == base.ports && base.protos + [] == base.protos;
    } else {
      FuelShrinks(c, path, name);
      var kids := ResolvedForest(c, base.includes, path + {name}, base);
      t := Node(base, kids);
      KidsForest(t, 0);
      assert kids[0..] == kids;
      AllConcat([base], Forest(kids));
      assert [base][1..] == [];
      assert base.ports + [] == base.ports && base.protos + [] == base.protos;
    }
  }

  lemma {:induction false} ResolvedForest(c: Catalog, includes: seq<string>, path: set<string>, acc: Def) returns (ts: seq<Tree>)
    requires ResolveAll(c, includes, path, acc).Ok?
    ensures TreesOf(c, ts, includes)
    ensures var r := ResolveAll(c, includes, path, acc).value;
      r.ports == acc.ports + AllPorts(Forest(ts)) && r.protos == acc.protos + AllProtos(Forest(ts))
    decreases Fuel(c, path), |includes|
  {
    if includes == [] {
      ts := [];
      assert acc.ports + [] == acc.ports && acc.protos + [] == acc.protos;
    } else {
      var sub := Resolve(c, includes[0], path).value;
      var next := Absorb(acc, sub).value;
      var t := ResolvedPreorder(c, includes[0], path);
      var rest := ResolvedForest(c, includes[1..], path, next);
      ts := [t] + rest;
      assert ts[1..] == rest;
      AllConcat(Preorder(t), Forest(rest));
      AbsorbShape(acc, sub, next, Forest(rest));
    }
  }

  lemma AbsorbShape(acc: Def, sub: Def, next: Def, more: seq<Def>)
    requires Absorb(acc, sub) == Ok(next)
    ensures next.ports + AllPorts(more) == acc.ports + (sub.ports + AllPorts(more))
    ensures next.protos + AllProtos(more) == acc.protos + (sub.protos + AllProtos(more))
  {
  }

  // ---- when resolution succeeds ----------------------------------------------------------------

  /** A chain of includes from a name; every name but the last is defined and includes the next. */
  ghost predicate Walk(c: Catalog, w: seq<string>)
  {
    w != [] && forall i :: 0 < i < |w| ==> Includes(c, w[i - 1], w[i])
  }

  predicate Includes(c: Catalog, a: string, b: string) {
    c.Find(a).Some? && b in c.Find(a).value.includes
  }

  ghost predicate From(c: Catalog, w: seq<string>, name: string) {
    Walk(c, w) && w[0] == name
  }

  function Last(w: seq<string>): string
    requires w != []
  {
    w[|w| - 1]
  }

  /** No name repeats and none lies on the path. */
  ghost predicate Simple(w: seq<string>, path: set<string>) {
    (forall i, j :: 0 <= i < j < |w| ==> w[i] != w[j]) && forall i :: 0 <= i < |w| ==> w[i] !in path
  }

  /** No undefined service and no cycle can be reached. */
  ghost predicate Sound(c: Catalog, name: string, path: set<string>) {
    forall w :: From(c, w, name) ==> c.Find(Last(w)).Some? && Simple(w, path)
  }

  function Dst(c: Catalog, name: string, v6: bool): Option<string> {
    match c.Find(name)
    case None => None
    case Some(d) => if v6 then d.dst6 else d.dst4
  }

  /** All destinations that can be reached are the same or absent. */
  ghost predicate Agree(c: Catalog, name: string, v6: bool) {
    forall w, u :: From(c, w, name) && From(c, u, name) ==> Compatible(Dst(c, Last(w), v6), Dst(c, Last(u), v6))
  }

  predicate Compatible(a: Option<string>, b: Option<string>) {
    a.None? || b.None? || a == b
  }

  lemma WalkCons(c: Catalog, name: string, w: seq<string>)
    requires Walk(c, w) && Includes(c, name, w[0])
    ensures From(c, [name] + w, name) && Last([name] + w) == Last(w)
  {
    var u := [name] + w;
    forall i | 0 < i < |u| ensures Includes(c, u[i - 1], u[i]) {
      if i > 1 {
        assert Includes(c, w[i - 2], w[i - 1]);
      }
    }
  }

  lemma WalkTail(c: Catalog, w: seq<string>)
    requires Walk(c, w) && |w| > 1
    ensures Includes(c, w[0], w[1]) && From(c, w[1..], w[1]) && Last(w[1..]) == Last(w)
  {
    assert Includes(c, w[1 - 1], w[1]);
    forall i | 0 < i < |w[1..]| ensures Includes(c, w[1..][i - 1], w[1..][i]) {
      assert Includes(c, w[i + 1 - 1], w[i + 1]);
    }
  }

  lemma SimpleCons(name: string, w: seq<string>, path: set<string>)
    ensures Simple([name] + w, path) <==> name !in path && Simple(w, path + {name})
  {
    var u := [name] + w;
    if name !in path && Simple(w, path + {name}) {
      forall i, j | 0 <= i < j < |u| ensures u[i] != u[j] {
        if i > 0 {
          assert w[i - 1] != w[j - 1];
        } else {
          assert w[j - 1] !in path + {name};
        }
      }
      forall i | 0 <= i < |u| ensures u[i] !in path {
        if i > 0 {
          assert w[i - 1] !in path + {name};
        }
      }
    }
    if Simple(u, path) {
      assert u[0] !in path;
      forall i, j | 0 <= i < j < |w| ensures w[i] != w[j] {
        assert u[i + 1] != u[j + 1];
      }
      forall i | 0 <= i < |w| ensures w[i] !in path + {name} {
        assert u[0] != u[i + 1] && u[i + 1] !in path;
      }
    }
  }

  function DstOf(d: Def, v6: bool): Option<string> {
    if v6 then d.dst6 else d.dst4
  }

  /** d is the one destination that walks from name can end in. */
  ghost predicate Summary(c: Catalog, name: string, v6: bool, d: Option<string>) {
    && (forall w :: From(c, w, name) && Dst(c, Last(w), v6).Some? ==> Dst(c, Last(w), v6) == d)
    && (d.Some? ==> exists w :: From(c, w, name) && Dst(c, Last(w), v6) == d)
  }

  /** The same over several includes, on top of what has been taken already. */
  ghost predicate SummaryAll(c: Catalog, includes: seq<string>, v6: bool, acc: Option<string>, d: Option<string>) {
    && (acc.Some? ==> d == acc)
    && (forall inc, w :: inc in includes && From(c, w, inc) && Dst(c, Last(w), v6).Some? ==> Dst(c, Last(w), v6) == d)
    && (d.Some? ==> d == acc || exists inc, w :: inc in includes && From(c, w, inc) && Dst(c, Last(w), v6) == d)
  }

  lemma SummaryCons(c: Catalog, includes: seq<string>, v6: bool, acc: Option<string>, sub: Option<string>, d: Option<string>)
    requires includes != [] && JoinDst(acc, sub).Ok?
    requires Summary(c, includes[0], v6, sub) && SummaryAll(c, includes[1..], v6, JoinDst(acc, sub).value, d)
    ensures SummaryAll(c, includes, v6, acc, d)
  {
    forall inc, w | inc in includes && From(c, w, inc) && Dst(c, Last(w), v6).Some? ensures Dst(c, Last(w), v6) == d {
      if inc == includes[0] {
        assert Dst(c, Last(w), v6) == sub;
      } else {
        assert inc in includes[1..];
      }
    }
    if d.Some? && d != acc {
      if d == sub {
        var w :| From(c, w, includes[0]) && Dst(c, Last(w), v6) == sub;
        assert includes[0] in includes;
      } else {
        var inc, w :| inc in includes[1..] && From(c, w, inc) && Dst(c, Last(w), v6) == d;
        assert inc in includes;
      }
    }
  }

  /** Walks from a name are the name alone or lead through one of its includes. */
  lemma SummaryNode(c: Catalog, name: string, v6: bool, d: Option<string>)
    requires c.Find(name).Some?
    requires SummaryAll(c, c.Find(name).value.includes, v6, DstOf(c.Find(name).value, v6), d)
    ensures Summary(c, name, v6, d)
  {
    var base := c.Find(name).value;
    assert From(c, [name], name) && Last([name]) == name;
    forall w | From(c, w, name) && Dst(c, Last(w), v6).Some? ensures Dst(c, Last(w), v6) == d {
      if |w| > 1 {
        WalkTail(c, w);
        assert w[1] in base.includes && From(c, w[1..], w[1]);
      } else {
        assert w == [name];
      }
    }
    if d.Some? && d != DstOf(base, v6) {
      var inc, w :| inc in base.includes && From(c, w, inc) && Dst(c, Last(w), v6) == d;
      WalkCons(c, name, w);
    }
  }

  lemma SoundNode(c: Catalog, name: string, path: set<string>)
    requires c.Find(name).Some? && name !in path
    requires forall inc :: inc in c.Find(name).value.includes ==> Sound(c, inc, path + {name})
    ensures Sound(c, name, path)
  {
    forall w | From(c, w, name) ensures c.Find(Last(w)).Some? && Simple(w, path) {
      if |w| > 1 {
        WalkTail(c, w);
        assert Sound(c, w[1], path + {name});
        SimpleCons(name, w[1..], path);
        assert w == [name] + w[1..];
      } else {
        assert w == [name];
      }
    }
  }

  /** Success: nothing undefined and no cycle is reachable, and the destinations are summed up. */
  lemma {:induction false} ResolvedSound(c: Catalog, name: string, path: set<string>)
    requires Resolve(c, name, path).Ok?
    ensures Sound(c, name, path)
    ensures forall v6 :: Summary(c, name, v6, DstOf(Resolve(c, name, path).value, v6))
    decreases Fuel(c, path), 0
  {
    var base := c.Find(name).value;
    var r := Resolve(c, name, path).value;
    if base.includes != [] {
      FuelShrinks(c, path, name);
      AllSound(c, base.includes, path + {name}, base);
    }
    SoundNode(c, name, path);
    forall v6 ensures Summary(c, name, v6, DstOf(r, v6)) {
      SummaryNode(c, name, v6, DstOf(r, v6));
    }
  }

  lemma {:induction false} AllSound(c: Catalog, includes: seq<string>, path: set<string>, acc: Def)
    requires ResolveAll(c, includes, path, acc).Ok?
    ensures forall inc :: inc in includes ==> Sound(c, inc, path)
    ensures forall v6 :: SummaryAll(c, includes, v6, DstOf(acc, v6), DstOf(ResolveAll(c, includes, path, acc).value, v6))
    decreases Fuel(c, path), |includes|
  {
    if includes != [] {
      var sub := Resolve(c, includes[0], path).value;
      var next := Absorb(acc, sub).value;
      ResolvedSound(c, includes[0], path);
      AllSound(c, includes[1..], path, next);
      forall inc | inc in includes ensures Sound(c, inc, path) {
        if inc != includes[0] {
          assert inc in includes[1..];
        }
      }
      var r := ResolveAll(c, includes, path, acc).value;
      forall v6 ensures SummaryAll(c, includes, v6, DstOf(acc, v6), DstOf(r, v6)) {
        assert JoinDst(DstOf(acc, v6), DstOf(sub, v6)) == Ok(DstOf(next, v6));
        SummaryCons(c, includes, v6, DstOf(acc, v6), DstOf(sub, v6), DstOf(r, v6));
      }
    }
  }

  /** Every destination below the includes is compatible with d and with every other one. */
  ghost predicate AgreeAll(c: Catalog, includes: seq<string>, v6: bool, d: Option<string>) {
    && (forall inc, w :: inc in includes && From(c, w, inc) ==> Compatible(d, Dst(c, Last(w), v6)))
    && (forall i, j, w, u :: i in includes && j in includes && From(c, w, i) && From(c, u, j)
          ==> Compatible(Dst(c, Last(w), v6), Dst(c, Last(u), v6)))
  }

  lemma AgreeNode(c: Catalog, name: string, v6: bool)
    requires c.Find(name).Some? && Agree(c, name, v6)
    ensures AgreeAll(c, c.Find(name).value.includes, v6, DstOf(c.Find(name).value, v6))
  {
    var base := c.Find(name).value;
    assert From(c, [name], name) && Last([name]) == name;
    forall inc, w | inc in base.includes && From(c, w, inc) ensures From(c, [name] + w, name) && Last([name] + w) == Last(w) {
      WalkCons(c, name, w);
    }
  }

  lemma AgreeHead(c: Catalog, includes: seq<string>, v6: bool, acc: Option<string>, sub: Option<string>)
    requires includes != [] && AgreeAll(c, includes, v6, acc) && Summary(c, includes[0], v6, sub)
    ensures JoinDst(acc, sub).Ok? && AgreeAll(c, includes[1..], v6, JoinDst(acc, sub).value)
  {
    assert includes[0] in includes;
    if sub.Some? {
      var w :| From(c, w, includes[0]) && Dst(c, Last(w), v6) == sub;
      assert Compatible(acc, Dst(c, Last(w), v6));
      forall inc, u | inc in includes[1..] && From(c, u, inc) ensures Compatible(sub, Dst(c, Last(u), v6)) {
        assert inc in includes;
      }
    }
    forall inc | inc in includes[1..] ensures inc in includes {
    }
  }

  lemma {:induction false} SoundResolves(c: Catalog, name: string, path: set<string>)
    requires Sound(c, name, path) && Agree(c, name, false) && Agree(c, name, true)
    ensures Resolve(c, name, path).Ok?
    decreases Fuel(c, path), 0
  {
    assert From(c, [name], name) && Last([name]) == name;
    assert Simple([name], path) && [name][0] == name;
    var base := c.Find(name).value;
    if base.includes != [] {
      FuelShrinks(c, path, name);
      forall inc | inc in base.includes ensures Sound(c, inc, path + {name}) {
        SoundBelow(c, name, inc, path);
      }
      AgreeNode(c, name, false);
      AgreeNode(c, name, true);
      AllResolve(c, base.includes, path + {name}, base);
    }
  }

  lemma SoundBelow(c: Catalog, name: string, inc: string, path: set<string>)
    requires Sound(c, name, path) && Includes(c, name, inc)
    ensures Sound(c, inc, path + {name})
  {
    forall w | From(c, w, inc) ensures c.Find(Last(w)).Some? && Simple(w, path + {name}) {
      WalkCons(c, name, w);
      SimpleCons(name, w, path);
    }
  }

  lemma {:induction false} AllResolve(c: Catalog, includes: seq<string>, path: set<string>, acc: Def)
    requires forall inc :: inc in includes ==> Sound(c, inc, path)
    requires AgreeAll(c, includes, false, acc.dst4) && AgreeAll(c, includes, true, acc.dst6)
    ensures ResolveAll(c, includes, path, acc).Ok?
    decreases Fuel(c, path), |includes|
  {
    if includes != [] {
      assert includes[0] in includes;
      assert Agree(c, includes[0], false) && Agree(c, includes[0], true);
      SoundResolves(c, includes[0], path);
      ResolvedSound(c, includes[0], path);
      var sub := Resolve(c, includes[0], path).value;
      assert Summary(c, includes[0], false, DstOf(sub, false)) && Summary(c, includes[0], true, DstOf(sub, true));
      AgreeHead(c, includes, false, acc.dst4, sub.dst4);
      AgreeHead(c, includes, true, acc.dst6, sub.dst6);
      forall inc | inc in includes[1..] ensures Sound(c, inc, path) {
        assert inc in includes;
      }
      AllResolve(c, includes[1..], path, Absorb(acc, sub).value);
    }
  }

  /** A service resolves if and only if no undefined service and no cycle can be reached from it
      and the destinations that can be reached agree in each family. */
  lemma ResolvesExactly(c: Catalog, name: string)
    ensures Resolve(c, name, {}).Ok?
       <==> Sound(c, name, {}) && Agree(c, name, false) && Agree(c, name, true)
  {
    if Resolve(c, name, {}).Ok? {
      ResolvedSound(c, name, {});
      var r := Resolve(c, name, {}).value;
      assert Summary(c, name, false, DstOf(r, false)) && Summary(c, name, true, DstOf(r, true));
    } else if Sound(c, name, {}) && Agree(c, name, false) && Agree(c, name, true) {
      SoundResolves(c, name, {});
    }
  }

  /** A file is used as it is and hides the known ports of its name; a name without a file stands for
      its known ports; one without either is undefined, and so is a file with an error. */
  lemma NameMeaning(c: Catalog, name: string)
    ensures name !in c.files && c.known(name) == [] ==> Resolve(c, name, {}) == Err
    ensures name !in c.files && c.known(name) != [] ==>
      Resolve(c, name, {}) == Ok(Def(c.known(name), [], None, None, []))
    ensures name in c.files && c.files[name] == None ==> Resolve(c, name, {}) == Err
    ensures name in c.files && c.files[name].Some? && c.files[name].value.includes == [] ==>
      Resolve(c, name, {}) == Ok(c.files[name].value)
  {
  }

  /** Including one service adds its ports and protocols behind the own ones and takes its
      destinations; two different destinations of one family are an error. */
  lemma OneInclude(c: Catalog, name: string, other: string)
    requires name != other && name in c.files && c.files[name].Some? && c.files[name].value.includes == [other]
    requires other in c.files && c.files[other].Some? && c.files[other].value.includes == []
    ensures var a, b := c.files[name].value, c.files[other].value;
      Resolve(c, name, {})
      == if (a.dst4.Some? && b.dst4.Some? && a.dst4 != b.dst4) || (a.dst6.Some? && b.dst6.Some? && a.dst6 != b.dst6) then Err
         else Ok(Def(a.ports + b.ports, a.protos + b.protos, if a.dst4.Some? then a.dst4 else b.dst4,
                     if a.dst6.Some? then a.dst6 else b.dst6, [other]))
  {
    var a := c.files[name].value;
    assert a.includes[1..] == [];
    assert Resolve(c, name, {}) == ResolveAll(c, a.includes, {} + {name}, a);
  }
}
