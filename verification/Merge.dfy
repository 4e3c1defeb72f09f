/** Merging imported rules into a stored list: an ordered upsert keyed by tuple. */
module Merge {
  import opened Rules

  /** The stored rule keeps its id and extensions; everything else is imported. */
  function Overwrite(r: Rule, stored: Rule): Rule {
    r.(id := stored.id, disabled := stored.disabled, expiresAt := stored.expiresAt)
  }

  /** What one imported rule does to one stored rule. */
  function Updated(stored: Rule, r: Rule): Rule {
    if Match(r, stored) == MatchComment || Match(r, stored) == MatchAction then Overwrite(r, stored) else stored
  }

  function Find(list: seq<Rule>, r: Rule): (j: Option<nat>)
    ensures j.Some? ==> j.value < |list| && SameTuple(r, list[j.value])
    ensures j.Some? ==> forall i :: 0 <= i < j.value ==> !SameTuple(r, list[i])
    ensures j.None? ==> forall i :: 0 <= i < |list| ==> !SameTuple(r, list[i])
  {
    FindFrom(list, r, 0)
  }

  function FindFrom(list: seq<Rule>, r: Rule, from: nat): (j: Option<nat>)
    requires from <= |list|
    ensures j.Some? ==> from <= j.value < |list| && SameTuple(r, list[j.value])
    ensures j.Some? ==> forall i :: from <= i < j.value ==> !SameTuple(r, list[i])
    ensures j.None? ==> forall i :: from <= i < |list| ==> !SameTuple(r, list[i])
    decreases |list| - from
  {
    if from == |list| then None
    else if SameTuple(r, list[from]) then Some(from)
    else FindFrom(list, r, from + 1)
  }

  predicate IdUsed(list: seq<Rule>, id: string) {
    exists i :: 0 <= i < |list| && list[i].id == id
  }

  /** One import step; newId is used when the rule brings no usable id of its own. */
  function MergeOne(list: seq<Rule>, r: Rule, newId: string): seq<Rule> {
    match Find(list, r)
    case Some(j) => list[j := Updated(list[j], r)]
    case None => list + [r.(id := if r.id == "" || IdUsed(list, r.id) then newId else r.id)]
  }

  /** The whole import; ids holds the value NewID would draw for each source rule. */
  function Merged(list: seq<Rule>, src: seq<Rule>, ids: seq<string>): seq<Rule>
    requires |ids| == |src|
  {
    if src == [] then list
    else
      var n := |src| - 1;
      MergeOne(Merged(list, src[..n], ids[..n]), src[n], ids[n])
  }

  predicate Changes(list: seq<Rule>, r: Rule) {
    var j := Find(list, r);
    j.None? || Match(r, list[j.value]) != MatchExact
  }

  function Count(list: seq<Rule>, src: seq<Rule>, ids: seq<string>): nat
    requires |ids| == |src|
  {
    if src == [] then 0
    else
      var n := |src| - 1;
      Count(list, src[..n], ids[..n]) + if Changes(Merged(list, src[..n], ids[..n]), src[n]) then 1 else 0
  }

  /** Scans for the stored rule of the tuple and replaces it in place, or appends. */
  method MergeRule(dst: seq<Rule>, r: Rule, newId: string) returns (out: seq<Rule>, changed: bool)
    ensures out == MergeOne(dst, r, newId)
    ensures changed <==> Changes(dst, r)
  {
    out := dst;
    for j := 0 to |dst|
      invariant out == dst
      invariant forall i :: 0 <= i < j ==> !SameTuple(r, dst[i])
    {
      match Match(r, dst[j]) {
        case MatchExact =>
          assert Find(dst, r) == Some(j) && out == dst[j := dst[j]];
          return out, false;
        case MatchNone =>
        case _ =>
          var id, disabled, expires := out[j].id, out[j].disabled, out[j].expiresAt;
          out := out[j := r.(id := id, disabled := disabled, expiresAt := expires)];
          assert Find(dst, r) == Some(j);
          return out, true;
      }
    }
    var stored := r;
    if r.id == "" || IdUsed(dst, r.id) {
      stored := r.(id := newId);
    }
    out := out + [stored];
    changed := true;
  }

  method MergeRules(dst: seq<Rule>, src: seq<Rule>, ids: seq<string>) returns (out: seq<Rule>, added: nat)
    requires |ids| == |src|
    ensures out == Merged(dst, src, ids)
    ensures added == Count(dst, src, ids)
  {
    out, added := dst, 0;
    for i := 0 to |src|
      invariant out == Merged(dst, src[..i], ids[..i])
      invariant added == Count(dst, src[..i], ids[..i])
    {
      assert src[..i + 1][..i] == src[..i] && ids[..i + 1][..i] == ids[..i];
      var changed;
      out, changed := MergeRule(out, src[i], ids[i]);
      if changed {
        added := added + 1;
      }
    }
    assert src[..|src|] == src && ids[..|ids|] == ids;
  }

  // ---- one stored rule over the whole import -------------------------------------------

  ghost predicate TuplesUnique(list: seq<Rule>) {
    forall i, j :: 0 <= i < j < |list| ==> !SameTuple(list[i], list[j])
  }

  predicate SameFields(a: Rule, b: Rule) {
    a.action == b.action && a.log == b.log && a.comment == b.comment
  }

  predicate SameKept(a: Rule, b: Rule) {
    a.id == b.id && a.disabled == b.disabled && a.expiresAt == b.expiresAt
  }

  predicate HasTuple(src: seq<Rule>, x: Rule) {
    exists i :: 0 <= i < |src| && SameTuple(src[i], x)
  }

  /** The last source rule of x's tuple. */
  function LastOf(src: seq<Rule>, x: Rule): (r: Rule)
    requires HasTuple(src, x)
    ensures SameTuple(r, x)
  {
    var n := |src| - 1;
    if SameTuple(src[n], x) then src[n]
    else
      assert HasTuple(src[..n], x) by {
        var i :| 0 <= i < |src| && SameTuple(src[i], x);
        assert src[..n][i] == src[i];
      }
      LastOf(src[..n], x)
  }

  /** x after every source rule has passed over it. */
  function UpdatedBy(x: Rule, src: seq<Rule>): (y: Rule)
    ensures SameTuple(y, x) && SameKept(y, x)
  {
    if src == [] then x
    else
      var p := UpdatedBy(x, src[..|src| - 1]);
      TupleEquivalence(p, x, src[|src| - 1]);
      TupleEquivalence(src[|src| - 1], p, x);
      Updated(p, src[|src| - 1])
  }

  /** Action, log and comment come from the last source rule of the tuple, if there is one. */
  lemma {:induction false} UpdatedByLast(x: Rule, src: seq<Rule>)
    ensures HasTuple(src, x) ==> SameFields(UpdatedBy(x, src), LastOf(src, x))
    ensures !HasTuple(src, x) ==> UpdatedBy(x, src) == x
  {
    if src != [] {
      var n := |src| - 1;
      UpdatedByLast(x, src[..n]);
      HasTupleSnoc(src, x);
      TupleEquivalence(src[n], UpdatedBy(x, src[..n]), x);
      TupleEquivalence(src[n], x, UpdatedBy(x, src[..n]));
    }
  }

  lemma HasTupleSnoc(src: seq<Rule>, x: Rule)
    requires src != []
    ensures HasTuple(src, x) <==> HasTuple(src[..|src| - 1], x) || SameTuple(src[|src| - 1], x)
  {
    var n := |src| - 1;
    if HasTuple(src, x) {
      var i :| 0 <= i < |src| && SameTuple(src[i], x);
      if i < n {
        assert SameTuple(src[..n][i], x);
      }
    }
    if HasTuple(src[..n], x) {
      var i :| 0 <= i < n && SameTuple(src[..n][i], x);
      assert SameTuple(src[i], x);
    }
  }

  // ---- the list ----------------------------------------------------------------------

  /** In a tuple-unique list every rule sees the update; at most one of them changes. */
  lemma MergeOnePointwise(list: seq<Rule>, r: Rule, newId: string)
    requires TuplesUnique(list)
    ensures var m := MergeOne(list, r, newId);
      && TuplesUnique(m) && |list| <= |m|
      && forall j :: 0 <= j < |list| ==> m[j] == Updated(list[j], r)
  {
    var m := MergeOne(list, r, newId);
    forall j | 0 <= j < |list| ensures m[j] == Updated(list[j], r) && SameTuple(m[j], list[j]) {
      if Find(list, r).Some? {
        var k := Find(list, r).value;
        TupleEquivalence(list[k], r, list[j]);
        TupleEquivalence(list[j], r, list[k]);
      }
      TupleEquivalence(r, list[j], list[j]);
    }
    forall i, j | 0 <= i < j < |m| ensures !SameTuple(m[i], m[j]) {
      if j < |list| {
        TupleEquivalence(list[i], m[i], m[j]);
        TupleEquivalence(list[i], m[j], list[j]);
      } else {
        TupleEquivalence(r, m[j], m[i]);
        TupleEquivalence(r, m[i], list[i]);
      }
    }
  }

  /** Existing rules keep their place, their tuple, their id and their extensions, and take
      action, log and comment from the last source rule of their tuple. */
  lemma {:induction false} MergeKeepsOrder(list: seq<Rule>, src: seq<Rule>, ids: seq<string>)
    requires |ids| == |src| && TuplesUnique(list)
    ensures var m := Merged(list, src, ids);
      && TuplesUnique(m) && |list| <= |m|
      && forall j :: 0 <= j < |list| ==> m[j] == UpdatedBy(list[j], src)
  {
    if src != [] {
      var n := |src| - 1;
      MergeKeepsOrder(list, src[..n], ids[..n]);
      MergeOnePointwise(Merged(list, src[..n], ids[..n]), src[n], ids[n]);
    }
  }

  /** Position i of the source brings the first rule of a tuple the list lacks. */
  predicate FirstNew(list: seq<Rule>, src: seq<Rule>, i: nat)
    requires i < |src|
  {
    !HasTuple(list, src[i]) && !HasTuple(src[..i], src[i])
  }

  function NewRules(list: seq<Rule>, src: seq<Rule>, n: nat): seq<Rule>
    requires n <= |src|
  {
    if n == 0 then []
    else NewRules(list, src, n - 1) + if FirstNew(list, src, n - 1) then [src[n - 1]] else []
  }

  ghost predicate TuplesAgree(a: seq<Rule>, b: seq<Rule>) {
    |a| == |b| && forall i :: 0 <= i < |a| ==> SameTuple(a[i], b[i])
  }

  /** The merged list holds the tuples of the list, then the new ones in order of first occurrence. */
  lemma {:induction false} MergeAppends(list: seq<Rule>, src: seq<Rule>, ids: seq<string>, n: nat)
    requires |ids| == |src| && TuplesUnique(list) && n <= |src|
    ensures TuplesAgree(Merged(list, src[..n], ids[..n]), list + NewRules(list, src, n))
    ensures forall x :: HasTuple(Merged(list, src[..n], ids[..n]), x) <==> HasTuple(list, x) || HasTuple(src[..n], x)
  {
    if n == 0 {
      assert list + [] == list;
      forall i | 0 <= i < |list| ensures SameTuple(list[i], list[i]) {
      }
    } else {
      assert src[..n][..n - 1] == src[..n - 1] && ids[..n][..n - 1] == ids[..n - 1];
      MergeAppends(list, src, ids, n - 1);
      MergeKeepsOrder(list, src[..n - 1], ids[..n - 1]);
      var m := Merged(list, src[..n - 1], ids[..n - 1]);
      AppendStep(m, list + NewRules(list, src, n - 1), src[n - 1], ids[n - 1]);
      AppendTuples(m, src[n - 1], ids[n - 1]);
      FindHas(m, src[n - 1]);
      assert Merged(list, src[..n], ids[..n]) == MergeOne(m, src[n - 1], ids[n - 1]);
      assert FirstNew(list, src, n - 1) <==> !HasTuple(m, src[n - 1]);
      NewSnoc(list, src, n);
      forall x ensures HasTuple(src[..n], x) <==> HasTuple(src[..n - 1], x) || SameTuple(src[n - 1], x) {
        HasTupleSnoc(src[..n], x);
      }
    }
  }

  lemma NewSnoc(list: seq<Rule>, src: seq<Rule>, n: nat)
    requires 0 < n <= |src|
    ensures list + NewRules(list, src, n)
         == (list + NewRules(list, src, n - 1)) + if FirstNew(list, src, n - 1) then [src[n - 1]] else []
  {
    var more := if FirstNew(list, src, n - 1) then [src[n - 1]] else [];
    assert list + (NewRules(list, src, n - 1) + more) == (list + NewRules(list, src, n - 1)) + more;
  }

  lemma FindHas(list: seq<Rule>, r: Rule)
    ensures HasTuple(list, r) <==> Find(list, r).Some?
  {
    if HasTuple(list, r) {
      var i :| 0 <= i < |list| && SameTuple(list[i], r);
      TupleEquivalence(list[i], r, r);
    }
    if Find(list, r).Some? {
      var j := Find(list, r).value;
      TupleEquivalence(list[j], r, r);
      assert SameTuple(list[j], r);
    }
  }

  lemma AppendStep(m: seq<Rule>, want: seq<Rule>, r: Rule, newId: string)
    requires TuplesUnique(m) && TuplesAgree(m, want)
    ensures TuplesAgree(MergeOne(m, r, newId), want + if Find(m, r).None? then [r] else [])
  {
    MergeOnePointwise(m, r, newId);
    var m2 := MergeOne(m, r, newId);
    forall i | 0 <= i < |m| ensures SameTuple(m2[i], want[i]) {
      TupleEquivalence(m2[i], m[i], want[i]);
      UpdatedTuple(m[i], r);
    }
  }

  lemma UpdatedTuple(x: Rule, r: Rule)
    ensures SameTuple(Updated(x, r), x) && SameKept(Updated(x, r), x)
  {
    TupleEquivalence(r, x, x);
  }

  lemma AppendTuples(m: seq<Rule>, r: Rule, newId: string)
    requires TuplesUnique(m)
    ensures forall x :: HasTuple(MergeOne(m, r, newId), x) <==> HasTuple(m, x) || SameTuple(r, x)
  {
    MergeOnePointwise(m, r, newId);
    var m2 := MergeOne(m, r, newId);
    forall x ensures HasTuple(m2, x) <==> HasTuple(m, x) || SameTuple(r, x) {
      forall i | 0 <= i < |m| ensures SameTuple(m2[i], x) <==> SameTuple(m[i], x) {
        UpdatedTuple(m[i], r);
        TupleEquivalence(m2[i], m[i], x);
        TupleEquivalence(m[i], m2[i], x);
      }
      if Find(m, r).None? {
        var last := m2[|m|];
        TupleEquivalence(last, r, x);
        TupleEquivalence(r, last, x);
        assert SameTuple(last, x) <==> SameTuple(r, x);
      } else {
        var j := Find(m, r).value;
        TupleEquivalence(m[j], r, x);
      }
      if HasTuple(m, x) {
        var i :| 0 <= i < |m| && SameTuple(m[i], x);
        assert SameTuple(m2[i], x);
      }
    }
  }

  // ---- ids ---------------------------------------------------------------------------

  ghost predicate IdsDistinct(list: seq<Rule>) {
    forall i, j :: 0 <= i < j < |list| ==> list[i].id != list[j].id
  }

  /** NewID is fresh: no stored or earlier drawn id repeats. */
  ghost predicate FreshIds(list: seq<Rule>, src: seq<Rule>, ids: seq<string>)
    requires |ids| == |src|
  {
    forall i :: 0 <= i < |ids| ==> FreshAt(list, src, ids, i)
  }

  ghost predicate FreshAt(list: seq<Rule>, src: seq<Rule>, ids: seq<string>, i: nat)
    requires |ids| == |src| && i < |ids|
  {
    !IdUsed(list, ids[i]) && !IdUsed(src, ids[i]) && forall j :: 0 <= j < i ==> ids[j] != ids[i]
  }

  lemma MergedSnoc(list: seq<Rule>, src: seq<Rule>, ids: seq<string>, n: nat)
    requires |ids| == |src| && 0 < n <= |src|
    ensures Merged(list, src[..n], ids[..n]) == MergeOne(Merged(list, src[..n - 1], ids[..n - 1]), src[n - 1], ids[n - 1])
  {
    assert src[..n][..n - 1] == src[..n - 1] && ids[..n][..n - 1] == ids[..n - 1];
  }

  /** An id is stored, imported, or drawn for one of the first n source rules. */
  ghost predicate KnownId(list: seq<Rule>, src: seq<Rule>, ids: seq<string>, n: nat, id: string)
    requires n <= |ids|
  {
    IdUsed(list, id) || IdUsed(src, id) || exists i :: 0 <= i < n && ids[i] == id
  }

  lemma NextIdUnknown(list: seq<Rule>, src: seq<Rule>, ids: seq<string>, n: nat, id: string)
    requires |ids| == |src| && n < |ids| && FreshIds(list, src, ids) && KnownId(list, src, ids, n, id)
    ensures id != ids[n] && KnownId(list, src, ids, n + 1, id)
  {
    assert FreshAt(list, src, ids, n);
  }

  lemma {:induction false} MergeIds(list: seq<Rule>, src: seq<Rule>, ids: seq<string>, n: nat)
    requires |ids| == |src| && TuplesUnique(list) && IdsDistinct(list) && FreshIds(list, src, ids) && n <= |src|
    ensures IdsDistinct(Merged(list, src[..n], ids[..n]))
    ensures forall j :: 0 <= j < |Merged(list, src[..n], ids[..n])| ==>
      KnownId(list, src, ids, n, Merged(list, src[..n], ids[..n])[j].id)
  {
    if n == 0 {
      forall j | 0 <= j < |list| ensures IdUsed(list, list[j].id) {
      }
    } else {
      MergeIds(list, src, ids, n - 1);
      MergeKeepsOrder(list, src[..n - 1], ids[..n - 1]);
      MergedSnoc(list, src, ids, n);
      NextIds(list, src, ids, n - 1, Merged(list, src[..n - 1], ids[..n - 1]));
    }
  }

  lemma NextIds(list: seq<Rule>, src: seq<Rule>, ids: seq<string>, n: nat, m: seq<Rule>)
    requires |ids| == |src| && n < |src| && FreshIds(list, src, ids)
    requires TuplesUnique(m) && IdsDistinct(m)
    requires forall j :: 0 <= j < |m| ==> KnownId(list, src, ids, n, m[j].id)
    ensures var m2 := MergeOne(m, src[n], ids[n]);
      IdsDistinct(m2) && forall j :: 0 <= j < |m2| ==> KnownId(list, src, ids, n + 1, m2[j].id)
  {
    forall j | 0 <= j < |m| ensures m[j].id != ids[n] && KnownId(list, src, ids, n + 1, m[j].id) {
      NextIdUnknown(list, src, ids, n, m[j].id);
    }
    OneMoreId(m, src[n], ids[n]);
    assert IdUsed(src, src[n].id);
    assert KnownId(list, src, ids, n + 1, ids[n]);
  }

  lemma OneMoreId(m: seq<Rule>, r: Rule, newId: string)
    requires TuplesUnique(m) && IdsDistinct(m) && !IdUsed(m, newId)
    ensures var m2 := MergeOne(m, r, newId);
      && IdsDistinct(m2) && |m| <= |m2| <= |m| + 1
      && (forall j :: 0 <= j < |m| ==> m2[j].id == m[j].id)
      && (forall j :: |m| <= j < |m2| ==> m2[j].id == newId || m2[j].id == r.id)
  {
    MergeOnePointwise(m, r, newId);
    var m2 := MergeOne(m, r, newId);
    forall j | 0 <= j < |m| ensures m2[j].id == m[j].id {
      UpdatedTuple(m[j], r);
    }
  }

  /** Ids stay distinct when NewID draws fresh ones. */
  lemma MergeKeepsIdsDistinct(list: seq<Rule>, src: seq<Rule>, ids: seq<string>)
    requires |ids| == |src| && TuplesUnique(list) && IdsDistinct(list) && FreshIds(list, src, ids)
    ensures IdsDistinct(Merged(list, src, ids))
  {
    assert src[..|src|] == src && ids[..|ids|] == ids;
    MergeIds(list, src, ids, |src|);
  }

  // ---- idempotence ---------------------------------------------------------------------

  /** A rule that a source leaves alone is left alone again after one more source rule. */
  lemma SettledStep(w: Rule, p: seq<Rule>, r: Rule)
    requires UpdatedBy(w, p) == w
    ensures UpdatedBy(Updated(w, r), p + [r]) == Updated(w, r)
  {
    var y := Updated(w, r);
    assert (p + [r])[..|p|] == p;
    if y != w {
      UpdatedTuple(w, r);
      SettledAgain(w, y, p, r);
    }
  }

  /** Both w and its replacement y end p with the fields of p's last rule of the tuple. */
  lemma SettledAgain(w: Rule, y: Rule, p: seq<Rule>, r: Rule)
    requires UpdatedBy(w, p) == w && SameTuple(r, w) && Match(r, w) != MatchExact && y == Overwrite(r, w)
    ensures Updated(UpdatedBy(y, p), r) == y
  {
    UpdatedByLast(w, p);
    UpdatedByLast(y, p);
    TupleEquivalence(r, w, y);
    TupleEquivalence(w, r, y);
    SameTupleLast(p, w, y);
    var u := UpdatedBy(y, p);
    TupleEquivalence(r, y, u);
    TupleEquivalence(u, y, r);
    TupleEquivalence(y, u, r);
  }

  lemma {:induction false} SameTupleLast(src: seq<Rule>, x: Rule, y: Rule)
    requires SameTuple(x, y)
    ensures HasTuple(src, x) <==> HasTuple(src, y)
    ensures HasTuple(src, x) ==> LastOf(src, x) == LastOf(src, y)
  {
    if src != [] {
      var n := |src| - 1;
      TupleEquivalence(src[n], x, y);
      TupleEquivalence(src[n], y, x);
      TupleEquivalence(x, y, x);
      HasTupleSnoc(src, x);
      HasTupleSnoc(src, y);
      SameTupleLast(src[..n], x, y);
    }
  }

  /** The source rules p leave the rules from position k on alone. */
  ghost predicate Settled(m: seq<Rule>, k: nat, p: seq<Rule>) {
    forall j :: k <= j < |m| ==> UpdatedBy(m[j], p) == m[j]
  }

  lemma SettledListStep(m: seq<Rule>, k: nat, p: seq<Rule>, r: Rule, newId: string)
    requires TuplesUnique(m) && Settled(m, k, p)
    requires Find(m, r).None? ==> !HasTuple(p, r)
    ensures Settled(MergeOne(m, r, newId), k, p + [r])
  {
    MergeOnePointwise(m, r, newId);
    var m2 := MergeOne(m, r, newId);
    forall j | k <= j < |m2| ensures UpdatedBy(m2[j], p + [r]) == m2[j] {
      if j < |m| {
        SettledStep(m[j], p, r);
      } else {
        AppendedSettled(m2[j], p, r);
      }
    }
  }

  lemma AppendedSettled(y: Rule, p: seq<Rule>, r: Rule)
    requires !HasTuple(p, r) && y == r.(id := y.id)
    ensures UpdatedBy(y, p + [r]) == y
  {
    assert (p + [r])[..|p|] == p;
    SameTupleLast(p, r, y);
    UpdatedByLast(y, p);
  }

  lemma AppendsOnlyNew(list: seq<Rule>, p: seq<Rule>, ids: seq<string>, r: Rule)
    requires |ids| == |p| && TuplesUnique(list)
    ensures TuplesUnique(Merged(list, p, ids))
    ensures Find(Merged(list, p, ids), r).None? ==> !HasTuple(p, r)
  {
    assert p[..|p|] == p && ids[..|p|] == ids;
    MergeKeepsOrder(list, p, ids);
    MergeAppends(list, p, ids, |p|);
    FindHas(Merged(list, p, ids), r);
  }

  /** After an import, every appended rule is settled. */
  lemma {:induction false} MergedSettled(list: seq<Rule>, src: seq<Rule>, ids: seq<string>)
    requires |ids| == |src| && TuplesUnique(list)
    ensures Settled(Merged(list, src, ids), |list|, src)
  {
    if src != [] {
      var n := |src| - 1;
      MergedSettled(list, src[..n], ids[..n]);
      AppendsOnlyNew(list, src[..n], ids[..n], src[n]);
      SettledListStep(Merged(list, src[..n], ids[..n]), |list|, src[..n], src[n], ids[n]);
      assert src == src[..n] + [src[n]];
    }
  }

  /** The second pass over a stored rule changes nothing. */
  lemma {:induction false} UpdatedTwice(x: Rule, src: seq<Rule>)
    ensures UpdatedBy(UpdatedBy(x, src), src) == UpdatedBy(x, src)
  {
    if src != [] {
      var n := |src| - 1;
      UpdatedTwice(x, src[..n]);
      SettledStep(UpdatedBy(x, src[..n]), src[..n], src[n]);
      assert src == src[..n] + [src[n]];
    }
  }

  lemma {:induction false} NothingNew(list: seq<Rule>, src: seq<Rule>, ids: seq<string>, n: nat)
    requires |ids| == |src| && TuplesUnique(list) && n <= |src|
    requires forall i :: 0 <= i < |src| ==> HasTuple(list, src[i])
    ensures |Merged(list, src[..n], ids[..n])| == |list|
  {
    MergeAppends(list, src, ids, n);
    NoNewRules(list, src, n);
  }

  lemma {:induction false} NoNewRules(list: seq<Rule>, src: seq<Rule>, n: nat)
    requires n <= |src| && forall i :: 0 <= i < |src| ==> HasTuple(list, src[i])
    ensures NewRules(list, src, n) == []
  {
    if n > 0 {
      NoNewRules(list, src, n - 1);
      assert HasTuple(list, src[n - 1]);
    }
  }

  /** Importing the same rules a second time leaves the list as it is, whatever ids NewID draws. */
  lemma MergeTwice(list: seq<Rule>, src: seq<Rule>, ids: seq<string>, ids2: seq<string>)
    requires |ids| == |ids2| == |src| && TuplesUnique(list)
    ensures Merged(Merged(list, src, ids), src, ids2) == Merged(list, src, ids)
  {
    var m := Merged(list, src, ids);
    assert src[..|src|] == src && ids[..|ids|] == ids && ids2[..|ids2|] == ids2;
    MergeKeepsOrder(list, src, ids);
    MergeAppends(list, src, ids, |src|);
    forall i | 0 <= i < |src| ensures HasTuple(m, src[i]) {
      TupleEquivalence(src[i], src[i], src[i]);
      assert HasTuple(src, src[i]);
    }
    MergeKeepsOrder(m, src, ids2);
    NothingNew(m, src, ids2, |src|);
    MergedSettled(list, src, ids);
    forall j | 0 <= j < |m| ensures UpdatedBy(m[j], src) == m[j] {
      if j < |list| {
        UpdatedTwice(list[j], src);
      }
    }
    assert Merged(m, src, ids2) == m;
  }

  // ---- first match -----------------------------------------------------------------------

  /** Imported rules are enabled and never expire. */
  ghost predicate Imported(src: seq<Rule>) {
    ValidRules(src) && forall i :: 0 <= i < |src| ==> !src[i].disabled && src[i].expiresAt == 0
  }

  lemma UpdatedHits(x: Rule, r: Rule, v6: bool, d: Direction, now: int, sets: SetFn, p: Packet)
    requires x.ValidAddrs() && r.ValidAddrs()
    ensures Updated(x, r).ValidAddrs()
    ensures Hits(Updated(x, r), v6, d, now, sets, p) <==> Hits(x, v6, d, now, sets, p)
  {
    UpdatedTuple(x, r);
    SameTupleSameMatches(Updated(x, r), x, v6, sets, p);
  }

  ghost predicate HitsAgree(m: seq<Rule>, s: seq<Rule>, v6: bool, d: Direction, now: int, sets: SetFn, p: Packet)
    requires ValidRules(m) && ValidRules(s)
  {
    var a, b := FirstHit(m, v6, d, now, sets, p), FirstHit(s, v6, d, now, sets, p);
    a.Some? == b.Some? && (a.Some? ==> SameTuple(m[a.value], s[b.value]))
  }

  /** Merged into an empty list, the first rule to match has the tuple of the source's first match. */
  lemma {:induction false} MergedFirstHit(src: seq<Rule>, ids: seq<string>, v6: bool, d: Direction, now: int, sets: SetFn, p: Packet)
    requires |ids| == |src| && Imported(src)
    ensures Imported(Merged([], src, ids)) && HitsAgree(Merged([], src, ids), src, v6, d, now, sets, p)
  {
    if src != [] {
      var n := |src| - 1;
      MergedFirstHit(src[..n], ids[..n], v6, d, now, sets, p);
      MergeKeepsOrder([], src[..n], ids[..n]);
      HitStep(Merged([], src[..n], ids[..n]), src[..n], src[n], ids[n], v6, d, now, sets, p);
      assert src == src[..n] + [src[n]];
    }
  }

  lemma FirstHitIs(list: seq<Rule>, k: nat, v6: bool, d: Direction, now: int, sets: SetFn, p: Packet)
    requires ValidRules(list) && k < |list| && Hits(list[k], v6, d, now, sets, p)
    requires forall i :: 0 <= i < k ==> !Hits(list[i], v6, d, now, sets, p)
    ensures FirstHit(list, v6, d, now, sets, p) == Some(k)
  {
    var h := FirstHit(list, v6, d, now, sets, p);
    assert h.Some? && !(h.value < k);
  }

  lemma FirstHitSnoc(list: seq<Rule>, r: Rule, v6: bool, d: Direction, now: int, sets: SetFn, p: Packet)
    requires ValidRules(list) && r.ValidAddrs()
    ensures ValidRules(list + [r])
    ensures FirstHit(list + [r], v6, d, now, sets, p)
         == if FirstHit(list, v6, d, now, sets, p).Some? then FirstHit(list, v6, d, now, sets, p)
            else if Hits(r, v6, d, now, sets, p) then Some(|list|) else None
  {
    var k := FirstHit(list, v6, d, now, sets, p);
    if k.Some? {
      FirstHitIs(list + [r], k.value, v6, d, now, sets, p);
    } else if Hits(r, v6, d, now, sets, p) {
      FirstHitIs(list + [r], |list|, v6, d, now, sets, p);
    } else {
      NoHit(list + [r], v6, d, now, sets, p);
    }
  }

  lemma NoHit(list: seq<Rule>, v6: bool, d: Direction, now: int, sets: SetFn, p: Packet)
    requires ValidRules(list) && forall i :: 0 <= i < |list| ==> !Hits(list[i], v6, d, now, sets, p)
    ensures FirstHit(list, v6, d, now, sets, p) == None
  {
  }

  lemma HitStep(m: seq<Rule>, s: seq<Rule>, r: Rule, newId: string, v6: bool, d: Direction, now: int, sets: SetFn, p: Packet)
    requires TuplesUnique(m) && Imported(m) && Imported([r]) && ValidRules(s)
    requires HitsAgree(m, s, v6, d, now, sets, p)
    ensures Imported(MergeOne(m, r, newId)) && ValidRules(s + [r])
    ensures HitsAgree(MergeOne(m, r, newId), s + [r], v6, d, now, sets, p)
  {
    assert [r][0] == r;
    FirstHitSnoc(s, r, v6, d, now, sets, p);
    if Find(m, r).None? {
      var stored := MergeOne(m, r, newId)[|m|];
      assert SameTuple(stored, r);
      FirstHitSnoc(m, stored, v6, d, now, sets, p);
      SameTupleSameMatches(stored, r, v6, sets, p);
    } else {
      ReplaceHit(m, r, newId, v6, d, now, sets, p);
    }
  }

  lemma ReplaceHit(m: seq<Rule>, r: Rule, newId: string, v6: bool, d: Direction, now: int, sets: SetFn, p: Packet)
    requires TuplesUnique(m) && Imported(m) && Imported([r]) && Find(m, r).Some?
    ensures var m2 := MergeOne(m, r, newId);
      && Imported(m2) && FirstHit(m2, v6, d, now, sets, p) == FirstHit(m, v6, d, now, sets, p)
      && (FirstHit(m, v6, d, now, sets, p).None? ==> !Hits(r, v6, d, now, sets, p))
      && |m2| == |m| && forall j :: 0 <= j < |m| ==> forall x :: SameTuple(m[j], x) ==> SameTuple(m2[j], x)
  {
    assert [r][0] == r;
    MergeOnePointwise(m, r, newId);
    var m2 := MergeOne(m, r, newId);
    forall j | 0 <= j < |m|
      ensures m2[j].ValidAddrs() && !m2[j].disabled && m2[j].expiresAt == 0
      ensures Hits(m2[j], v6, d, now, sets, p) == Hits(m[j], v6, d, now, sets, p)
    {
      UpdatedHits(m[j], r, v6, d, now, sets, p);
      UpdatedTuple(m[j], r);
    }
    forall j, x | 0 <= j < |m| && SameTuple(m[j], x) ensures SameTuple(m2[j], x) {
      UpdatedTuple(m[j], r);
      TupleEquivalence(m2[j], m[j], x);
    }
    var h := FirstHit(m, v6, d, now, sets, p);
    if h.Some? {
      FirstHitIs(m2, h.value, v6, d, now, sets, p);
    } else {
      var j := Find(m, r).value;
      SameTupleSameMatches(r, m[j], v6, sets, p);
    }
  }

  /** The merged list decides like the source's first match, except that the action comes from
      the last source rule of that tuple; so decisions agree exactly when the two actions do. */
  lemma MergedVerdict(src: seq<Rule>, ids: seq<string>, v6: bool, d: Direction, now: int, sets: SetFn, p: Packet)
    requires |ids| == |src| && Imported(src)
    ensures var m := Merged([], src, ids);
      && Imported(m)
      && var a, b := FirstHit(m, v6, d, now, sets, p), FirstHit(src, v6, d, now, sets, p);
      && a.Some? == b.Some?
      && (a.Some? ==>
            && HasTuple(src, src[b.value])
            && m[a.value].action == LastOf(src, src[b.value]).action)
  {
    MergedFirstHit(src, ids, v6, d, now, sets, p);
    var m := Merged([], src, ids);
    var a, b := FirstHit(m, v6, d, now, sets, p), FirstHit(src, v6, d, now, sets, p);
    if a.Some? {
      TupleEquivalence(src[b.value], src[b.value], src[b.value]);
      assert HasTuple(src, src[b.value]);
      MergedSettled([], src, ids);
      UpdatedByLast(m[a.value], src);
      SameTupleLast(src, m[a.value], src[b.value]);
    }
  }

  /** With distinct tuples the merge keeps every rule, in order, up to its id. */
  lemma DistinctMerge(src: seq<Rule>, ids: seq<string>, v6: bool, d: Direction, now: int, sets: SetFn, p: Packet)
    requires |ids| == |src| && Imported(src) && TuplesUnique(src)
    ensures var m := Merged([], src, ids);
      && Imported(m)
      && var a, b := FirstHit(m, v6, d, now, sets, p), FirstHit(src, v6, d, now, sets, p);
      a.Some? == b.Some? && (a.Some? ==> m[a.value].action == src[b.value].action)
  {
    MergedVerdict(src, ids, v6, d, now, sets, p);
    var b := FirstHit(src, v6, d, now, sets, p);
    if b.Some? {
      OnlyOne(src, b.value);
    }
  }

  lemma {:induction false} OnlyOne(src: seq<Rule>, k: nat)
    requires TuplesUnique(src) && k < |src| && HasTuple(src, src[k])
    ensures LastOf(src, src[k]) == src[k]
  {
    var n := |src| - 1;
    TupleEquivalence(src[n], src[k], src[k]);
    if k < n {
      TupleEquivalence(src[k], src[n], src[k]);
      assert src[..n][k] == src[k];
      HasTupleSnoc(src, src[k]);
      OnlyOne(src[..n], k);
    }
  }
}
