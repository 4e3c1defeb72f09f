/** Applying threat-ban batches to the stored ban list. */
module ThreatBans {
  import opened Rules
  import opened Store
  import opened InPlace

  /** A batch: bans to add or replace, decisions to delete, and whether it is the full set. */
  datatype Update = Update(snapshot: bool, add: seq<Ban>, deleteIds: seq<int>)

  const CROWDSEC: string := "crowdsec"

  predicate FromCrowdSec(b: Ban) {
    b.source == CROWDSEC
  }

  predicate IsLocal(b: Ban) {
    !FromCrowdSec(b)
  }

  /** Decisions are identified by id, local bans by source and address. */
  predicate SameKey(a: Ban, b: Ban) {
    if FromCrowdSec(a) then FromCrowdSec(b) && a.decisionId == b.decisionId
    else IsLocal(b) && a.source == b.source && a.address == b.address
  }

  const SSH: string := "ssh:"

  predicate SourceOk(b: Ban) {
    if FromCrowdSec(b) then b.decisionId > 0
    else SSH < b.source && b.decisionId == 0
  }

  /** A ban that a batch may carry: unexpired, with a valid address and a known source. */
  predicate Acceptable(b: Ban, now: int) {
    b.expiresAt > now && !b.address.BadIp? && SourceOk(b)
  }

  function FindKey(bans: seq<Ban>, x: Ban, from: nat): (i: Option<nat>)
    requires from <= |bans|
    ensures i.Some? ==> from <= i.value < |bans| && SameKey(x, bans[i.value])
    ensures i.Some? ==> forall j :: from <= j < i.value ==> !SameKey(x, bans[j])
    ensures i.None? ==> forall j :: from <= j < |bans| ==> !SameKey(x, bans[j])
    decreases |bans| - from
  {
    if from == |bans| then None
    else if SameKey(x, bans[from]) then Some(from)
    else FindKey(bans, x, from + 1)
  }

  function Upsert(bans: seq<Ban>, x: Ban): seq<Ban> {
    match FindKey(bans, x, 0)
    case Some(i) => bans[i := x]
    case None => bans + [x]
  }

  function UpsertAll(bans: seq<Ban>, xs: seq<Ban>): seq<Ban> {
    if xs == [] then bans else Upsert(UpsertAll(bans, xs[..|xs| - 1]), xs[|xs| - 1])
  }

  predicate Stays(b: Ban, ids: seq<int>) {
    FromCrowdSec(b) ==> b.decisionId !in ids
  }

  function KeepLocal(): Ban -> bool {
    b => IsLocal(b)
  }

  function KeepStays(ids: seq<int>): Ban -> bool {
    b => Stays(b, ids)
  }

  function KeepUnexpired(now: int): Ban -> bool {
    (b: Ban) => b.expiresAt > now
  }

  /** A snapshot forgets every decision first; deletions come after additions and only in deltas. */
  function Applied(bans: seq<Ban>, u: Update): seq<Ban> {
    if u.snapshot then UpsertAll(Filter(bans, KeepLocal()), u.add)
    else Filter(UpsertAll(bans, u.add), KeepStays(u.deleteIds))
  }

  predicate Rejected(u: Update, now: int) {
    || (exists i :: 0 <= i < |u.add| && !Acceptable(u.add[i], now))
    || (!u.snapshot && exists i :: 0 <= i < |u.deleteIds| && u.deleteIds[i] <= 0)
  }

  function Apply(bans: seq<Ban>, u: Update, now: int): Result<seq<Ban>> {
    if Rejected(u, now) then Err else Ok(Applied(bans, u))
  }

  // ---- the code -------------------------------------------------------------------------------

  method Keep(bans: seq<Ban>, keep: Ban -> bool) returns (out: seq<Ban>)
    ensures out == Filter(bans, keep)
  {
    var cells := new Ban[|bans|](i requires 0 <= i < |bans| => bans[i]);
    assert cells[..] == bans;
    var n := KeepInPlace(cells, keep);
    out := cells[..n];
  }

  method UpsertBan(bans: seq<Ban>, x: Ban) returns (out: seq<Ban>)
    ensures out == Upsert(bans, x)
  {
    for i := 0 to |bans|
      invariant forall j :: 0 <= j < i ==> !SameKey(x, bans[j])
    {
      if SameKey(x, bans[i]) {
        assert FindKey(bans, x, 0) == Some(i);
        return bans[i := x];
      }
    }
    out := bans + [x];
  }

  method AddBans(start: seq<Ban>, add: seq<Ban>, now: int) returns (ok: bool, bans: seq<Ban>)
    ensures ok <==> forall i :: 0 <= i < |add| ==> Acceptable(add[i], now)
    ensures ok ==> bans == UpsertAll(start, add)
  {
    bans := start;
    for i := 0 to |add|
      invariant bans == UpsertAll(start, add[..i])
      invariant forall j :: 0 <= j < i ==> Acceptable(add[j], now)
    {
      assert add[..i + 1][..i] == add[..i];
      if !Acceptable(add[i], now) {
        return false, bans;
      }
      bans := UpsertBan(bans, add[i]);
    }
    assert add[..|add|] == add;
    ok := true;
  }

  method ComputeBans(bans: seq<Ban>, u: Update, now: int) returns (res: Result<seq<Ban>>)
    ensures res == Apply(bans, u, now)
  {
    var out := bans;
    if u.snapshot {
      out := Keep(out, KeepLocal());
    }
    var ok;
    ok, out := AddBans(out, u.add, now);
    if !ok {
      return Err;
    }
    if !u.snapshot {
      if exists i :: 0 <= i < |u.deleteIds| && u.deleteIds[i] <= 0 {
        return Err;
      }
      out := Keep(out, KeepStays(u.deleteIds));
    }
    res := Ok(out);
  }

  /** Works on a copy, so a rejected batch leaves the state as it was. */
  method ApplyThreatUpdateToState(st: State, u: Update, now: int) returns (out: State, ok: bool, changed: bool)
    ensures ok <==> Apply(st.bans, u, now).Ok?
    ensures out == if ok then st.(bans := Apply(st.bans, u, now).value) else st
    ensures changed <==> out != st
  {
    var bans := ComputeBans(st.bans, u, now);
    match bans {
      case Err => out, ok, changed := st, false, false;
      case Ok(list) =>
        out, ok := st.(bans := list), true;
        changed := list != st.bans;
    }
  }

  // ---- upserts ----------------------------------------------------------------------------------

  ghost predicate KeysUnique(bans: seq<Ban>) {
    forall i, j :: 0 <= i < j < |bans| ==> !SameKey(bans[i], bans[j])
  }

  lemma KeyEquivalence(a: Ban, b: Ban, c: Ban)
    ensures SameKey(a, a)
    ensures SameKey(a, b) <==> SameKey(b, a)
    ensures SameKey(a, b) && SameKey(b, c) ==> SameKey(a, c)
  {
  }

  predicate HasKey(xs: seq<Ban>, b: Ban) {
    exists i :: 0 <= i < |xs| && SameKey(xs[i], b)
  }

  /** The last ban of the batch with b's key, or b itself. */
  function Latest(b: Ban, xs: seq<Ban>): (r: Ban)
    ensures SameKey(r, b)
  {
    if xs == [] then b
    else if SameKey(xs[|xs| - 1], b) then xs[|xs| - 1]
    else Latest(b, xs[..|xs| - 1])
  }

  lemma UpsertPointwise(bans: seq<Ban>, x: Ban)
    requires KeysUnique(bans)
    ensures var out := Upsert(bans, x);
      && KeysUnique(out) && |bans| <= |out| <= |bans| + 1
      && (forall j :: 0 <= j < |bans| ==> out[j] == if SameKey(x, bans[j]) then x else bans[j])
      && (|out| > |bans| <==> !HasKey(bans, x)) && (|out| > |bans| ==> out[|bans|] == x)
  {
    var out := Upsert(bans, x);
    var k := FindKey(bans, x, 0);
    forall j | 0 <= j < |bans| ensures out[j] == if SameKey(x, bans[j]) then x else bans[j] {
      if k.Some? && SameKey(x, bans[j]) {
        KeyEquivalence(bans[j], x, bans[k.value]);
        KeyEquivalence(bans[k.value], x, bans[j]);
      }
    }
    forall i, j | 0 <= i < j < |out| ensures !SameKey(out[i], out[j]) {
      KeyEquivalence(out[i], x, out[j]);
      KeyEquivalence(x, out[i], out[j]);
    }
    if k.Some? {
      KeyEquivalence(bans[k.value], x, x);
    }
    if HasKey(bans, x) {
      var i :| 0 <= i < |bans| && SameKey(bans[i], x);
      KeyEquivalence(bans[i], x, x);
    }
  }

  lemma {:induction false} UpsertAllPointwise(bans: seq<Ban>, xs: seq<Ban>)
    requires KeysUnique(bans)
    ensures var out := UpsertAll(bans, xs);
      && KeysUnique(out) && |bans| <= |out|
      && forall j :: 0 <= j < |bans| ==> out[j] == Latest(bans[j], xs)
  {
    if xs != [] {
      var n := |xs| - 1;
      UpsertAllPointwise(bans, xs[..n]);
      var mid := UpsertAll(bans, xs[..n]);
      UpsertPointwise(mid, xs[n]);
      forall j | 0 <= j < |bans| ensures Upsert(mid, xs[n])[j] == Latest(bans[j], xs) {
        KeyEquivalence(xs[n], mid[j], bans[j]);
        KeyEquivalence(xs[n], bans[j], mid[j]);
      }
    }
  }

  // ---- what a batch leaves alone -----------------------------------------------------------------

  ghost predicate AllCrowd(xs: seq<Ban>) {
    forall i :: 0 <= i < |xs| ==> FromCrowdSec(xs[i])
  }

  ghost predicate AllLocal(xs: seq<Ban>) {
    forall i :: 0 <= i < |xs| ==> IsLocal(xs[i])
  }

  lemma FilterReplace(s: seq<Ban>, i: nat, x: Ban, keep: Ban -> bool)
    requires i < |s| && !keep(s[i]) && !keep(x)
    ensures Filter(s[i := x], keep) == Filter(s, keep)
  {
    var a, b := s[..i], s[i + 1..];
    assert s == a + ([s[i]] + b) && s[i := x] == a + ([x] + b);
    FilterConcat(a, [s[i]] + b, keep);
    FilterConcat(a, [x] + b, keep);
    FilterConcat([s[i]], b, keep);
    FilterConcat([x], b, keep);
    FilterNone([s[i]], keep);
    FilterNone([x], keep);
  }

  lemma {:induction false} FilterFilter(s: seq<Ban>, outer: Ban -> bool, inner: Ban -> bool)
    requires forall x :: outer(x) ==> inner(x)
    ensures Filter(Filter(s, inner), outer) == Filter(s, outer)
  {
    if s != [] {
      var n := |s| - 1;
      FilterFilter(s[..n], outer, inner);
      var tail := if inner(s[n]) then [s[n]] else [];
      FilterConcat(Filter(s[..n], inner), tail, outer);
      if inner(s[n]) && outer(s[n]) {
        FilterAll(tail, outer);
      } else {
        FilterNone(tail, outer);
      }
    }
  }

  lemma {:induction false} UpsertElsewhere(bans: seq<Ban>, xs: seq<Ban>, keep: Ban -> bool)
    requires forall i :: 0 <= i < |xs| ==> !keep(xs[i])
    requires forall a, b :: SameKey(a, b) ==> keep(a) == keep(b)
    ensures Filter(UpsertAll(bans, xs), keep) == Filter(bans, keep)
  {
    if xs != [] {
      var n := |xs| - 1;
      UpsertElsewhere(bans, xs[..n], keep);
      var mid := UpsertAll(bans, xs[..n]);
      var k := FindKey(mid, xs[n], 0);
      if k.Some? {
        assert keep(mid[k.value]) == keep(xs[n]);
        FilterReplace(mid, k.value, xs[n], keep);
      } else {
        FilterConcat(mid, [xs[n]], keep);
        FilterNone([xs[n]], keep);
      }
    }
  }

  /** A batch of decisions leaves the local bans and their order alone. */
  lemma LocalUntouched(bans: seq<Ban>, u: Update)
    requires AllCrowd(u.add)
    ensures Filter(Applied(bans, u), KeepLocal()) == Filter(bans, KeepLocal())
  {
    if u.snapshot {
      UpsertElsewhere(Filter(bans, KeepLocal()), u.add, KeepLocal());
      FilterFilter(bans, KeepLocal(), KeepLocal());
    } else {
      UpsertElsewhere(bans, u.add, KeepLocal());
      FilterFilter(UpsertAll(bans, u.add), KeepLocal(), KeepStays(u.deleteIds));
    }
  }

  function KeepCrowd(): Ban -> bool {
    b => FromCrowdSec(b)
  }

  /** A local ban leaves the decisions and their order alone. */
  lemma DecisionsUntouched(bans: seq<Ban>, u: Update)
    requires AllLocal(u.add) && !u.snapshot && u.deleteIds == []
    ensures Filter(Applied(bans, u), KeepCrowd()) == Filter(bans, KeepCrowd())
  {
    UpsertElsewhere(bans, u.add, KeepCrowd());
    FilterFilter(UpsertAll(bans, u.add), KeepCrowd(), KeepStays(u.deleteIds));
  }

  // ---- keys stay unique -----------------------------------------------------------------------

  lemma {:induction false} FilterUnique(bans: seq<Ban>, keep: Ban -> bool)
    requires KeysUnique(bans)
    ensures KeysUnique(Filter(bans, keep))
  {
    if bans != [] {
      var n := |bans| - 1;
      FilterUnique(bans[..n], keep);
      var f := Filter(bans[..n], keep);
      FilterMembers(bans[..n], keep);
      forall i | 0 <= i < |f| ensures !SameKey(f[i], bans[n]) {
        assert f[i] in bans[..n];
        var j :| 0 <= j < n && bans[j] == f[i];
      }
    }
  }

  lemma AppliedUnique(bans: seq<Ban>, u: Update)
    requires KeysUnique(bans)
    ensures KeysUnique(Applied(bans, u))
  {
    if u.snapshot {
      FilterUnique(bans, KeepLocal());
      UpsertAllPointwise(Filter(bans, KeepLocal()), u.add);
    } else {
      UpsertAllPointwise(bans, u.add);
      FilterUnique(UpsertAll(bans, u.add), KeepStays(u.deleteIds));
    }
  }

  // ---- idempotence ------------------------------------------------------------------------------

  /** Every ban present after a batch is the batch's latest of its key, and what was appended
      has a key of the batch that was not there before. */
  lemma {:induction false} UpsertAllSettles(bans: seq<Ban>, xs: seq<Ban>)
    requires KeysUnique(bans)
    ensures var out := UpsertAll(bans, xs);
      && (forall j :: 0 <= j < |out| ==> Latest(out[j], xs) == out[j])
      && (forall j :: |bans| <= j < |out| ==> HasKey(xs, out[j]) && !HasKey(bans, out[j]))
  {
    if xs != [] {
      var n := |xs| - 1;
      var mid := UpsertAll(bans, xs[..n]);
      UpsertAllPointwise(bans, xs[..n]);
      UpsertAllSettles(bans, xs[..n]);
      LatestStep(mid, xs);
      TailStep(bans, mid, xs);
    }
  }

  /** Every key of the batch is present afterwards. */
  lemma {:induction false} UpsertAllHas(bans: seq<Ban>, xs: seq<Ban>)
    requires KeysUnique(bans)
    ensures forall i :: 0 <= i < |xs| ==> HasKey(UpsertAll(bans, xs), xs[i])
  {
    if xs != [] {
      var n := |xs| - 1;
      var mid := UpsertAll(bans, xs[..n]);
      UpsertAllPointwise(bans, xs[..n]);
      UpsertAllHas(bans, xs[..n]);
      forall i | 0 <= i < |xs| ensures HasKey(Upsert(mid, xs[n]), xs[i]) {
        if i < n {
          assert xs[..n][i] == xs[i];
          KeepsKey(mid, xs[n], xs[i]);
        } else {
          AddsKey(mid, xs[n]);
        }
      }
    }
  }

  lemma KeepsKey(bans: seq<Ban>, x: Ban, b: Ban)
    requires KeysUnique(bans) && HasKey(bans, b)
    ensures HasKey(Upsert(bans, x), b)
  {
    UpsertPointwise(bans, x);
    var j :| 0 <= j < |bans| && SameKey(bans[j], b);
    KeyEquivalence(x, bans[j], b);
    assert SameKey(Upsert(bans, x)[j], b);
  }

  lemma AddsKey(bans: seq<Ban>, x: Ban)
    requires KeysUnique(bans)
    ensures HasKey(Upsert(bans, x), x)
  {
    KeyEquivalence(x, x, x);
    match FindKey(bans, x, 0)
    case Some(i) => assert Upsert(bans, x)[i] == x;
    case None => assert Upsert(bans, x)[|bans|] == x;
  }

  lemma LatestStep(mid: seq<Ban>, xs: seq<Ban>)
    requires xs != [] && KeysUnique(mid)
    requires forall j :: 0 <= j < |mid| ==> Latest(mid[j], xs[..|xs| - 1]) == mid[j]
    ensures var out := Upsert(mid, xs[|xs| - 1]); forall j :: 0 <= j < |out| ==> Latest(out[j], xs) == out[j]
  {
    var x := xs[|xs| - 1];
    UpsertPointwise(mid, x);
    forall j | 0 <= j < |Upsert(mid, x)| ensures Latest(Upsert(mid, x)[j], xs) == Upsert(mid, x)[j] {
      KeyEquivalence(x, x, x);
    }
  }

  lemma TailStep(bans: seq<Ban>, mid: seq<Ban>, xs: seq<Ban>)
    requires xs != [] && KeysUnique(mid) && |bans| <= |mid|
    requires forall j :: 0 <= j < |bans| ==> mid[j] == Latest(bans[j], xs[..|xs| - 1])
    requires forall j :: |bans| <= j < |mid| ==> HasKey(xs[..|xs| - 1], mid[j]) && !HasKey(bans, mid[j])
    ensures var out := Upsert(mid, xs[|xs| - 1]);
      forall j :: |bans| <= j < |out| ==> HasKey(xs, out[j]) && !HasKey(bans, out[j])
  {
    var n := |xs| - 1;
    var x, out := xs[n], Upsert(mid, xs[n]);
    UpsertPointwise(mid, x);
    forall j | |bans| <= j < |out| ensures HasKey(xs, out[j]) && !HasKey(bans, out[j]) {
      if out[j] == x {
        KeyEquivalence(x, x, x);
        assert SameKey(xs[n], out[j]);
        NoKeyBelow(bans, mid, xs[..n], j, x);
      } else {
        LongerHas(xs, mid[j]);
      }
    }
  }

  lemma LongerHas(xs: seq<Ban>, b: Ban)
    requires xs != [] && HasKey(xs[..|xs| - 1], b)
    ensures HasKey(xs, b)
  {
    var i :| 0 <= i < |xs| - 1 && SameKey(xs[..|xs| - 1][i], b);
    assert SameKey(xs[i], b);
  }

  /** A key found or added at position j beyond the original list is not in the original list. */
  lemma NoKeyBelow(bans: seq<Ban>, mid: seq<Ban>, p: seq<Ban>, j: nat, x: Ban)
    requires KeysUnique(mid) && |bans| <= |mid| && |bans| <= j <= |mid|
    requires forall i :: 0 <= i < |bans| ==> mid[i] == Latest(bans[i], p)
    requires j < |mid| ==> SameKey(mid[j], x)
    requires j == |mid| ==> !HasKey(mid, x)
    ensures !HasKey(bans, x)
  {
    if HasKey(bans, x) {
      var i :| 0 <= i < |bans| && SameKey(bans[i], x);
      KeyEquivalence(mid[i], bans[i], x);
      assert SameKey(mid[i], x);
      if j < |mid| {
        KeyEquivalence(mid[i], x, mid[j]);
        KeyEquivalence(x, mid[j], mid[i]);
      }
    }
  }

  /** Applying a batch a second time changes nothing. */
  lemma ApplyTwice(bans: seq<Ban>, u: Update)
    requires KeysUnique(bans) && (u.snapshot ==> AllCrowd(u.add))
    ensures Applied(Applied(bans, u), u) == Applied(bans, u)
  {
    if u.snapshot {
      LocalUntouched(bans, u);
    } else {
      DeltaTwice(bans, u);
    }
  }

  lemma DeltaTwice(bans: seq<Ban>, u: Update)
    requires KeysUnique(bans) && !u.snapshot
    ensures Applied(Applied(bans, u), u) == Applied(bans, u)
  {
    var keep := KeepStays(u.deleteIds);
    var a := UpsertAll(bans, u.add);
    var d := Filter(a, keep);
    UpsertAllPointwise(bans, u.add);
    UpsertAllSettles(bans, u.add);
    UpsertAllHas(bans, u.add);
    FilterUnique(a, keep);
    FilterMembers(a, keep);
    forall j | 0 <= j < |d| ensures Latest(d[j], u.add) == d[j] {
      assert d[j] in a;
      var i :| 0 <= i < |a| && a[i] == d[j];
    }
    SecondPass(a, d, u.add, keep);
  }

  /** Over settled and kept bans, a second pass only appends what is dropped again. */
  lemma SecondPass(a: seq<Ban>, d: seq<Ban>, xs: seq<Ban>, keep: Ban -> bool)
    requires KeysUnique(d) && d == Filter(a, keep)
    requires forall j :: 0 <= j < |d| ==> Latest(d[j], xs) == d[j]
    requires forall i :: 0 <= i < |xs| ==> HasKey(a, xs[i])
    requires forall p, q :: SameKey(p, q) ==> keep(p) == keep(q)
    ensures Filter(UpsertAll(d, xs), keep) == d
  {
    UpsertAllPointwise(d, xs);
    UpsertAllSettles(d, xs);
    var e := UpsertAll(d, xs);
    var more := e[|d|..];
    assert e == d + more;
    forall y | y in more ensures !keep(y) {
      var j :| |d| <= j < |e| && e[j] == y;
      if keep(y) {
        PresentKept(a, xs, d, keep, y);
        assert false;
      }
    }
    FilterConcat(d, more, keep);
    FilterNone(more, keep);
    FilterMembers(a, keep);
    FilterAll(d, keep);
    assert d + [] == d;
  }

  lemma PresentKept(a: seq<Ban>, xs: seq<Ban>, d: seq<Ban>, keep: Ban -> bool, y: Ban)
    requires HasKey(xs, y) && keep(y) && d == Filter(a, keep)
    requires forall i :: 0 <= i < |xs| ==> HasKey(a, xs[i])
    requires forall p, q :: SameKey(p, q) ==> keep(p) == keep(q)
    ensures HasKey(d, y)
  {
    var i :| 0 <= i < |xs| && SameKey(xs[i], y);
    assert HasKey(a, xs[i]);
    var k :| 0 <= k < |a| && SameKey(a[k], xs[i]);
    KeyEquivalence(a[k], xs[i], y);
    FilterMembers(a, keep);
    assert keep(a[k]) == keep(y);
    assert a[k] in d;
    var m :| 0 <= m < |d| && d[m] == a[k];
    assert SameKey(d[m], y);
  }
}
