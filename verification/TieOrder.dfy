/** The merge of intervals whose sort leaves equal starts in any order. */
module TieOrder {
  import opened Cidr
  import opened Intervals

  // ---- every order of equal starts --------------------------------------------------------

  /** Insertion sort is one order that the library may leave. */
  lemma InsertionSorts()
    ensures IsSorting(s => SortByStart(s))
  {
    forall s ensures SortedCopy(SortByStart(s), s) {
      SortSorts(s);
    }
  }

  /** Any one sorted copy is what some library sort returns. */
  lemma SortingFor(ivs: seq<Interval>, t: seq<Interval>) returns (sort: Sorting)
    requires SortedCopy(t, ivs)
    ensures IsSorting(sort) && sort(ivs) == t
  {
    sort := s => if s == ivs then t else SortByStart(s);
    forall s ensures SortedCopy(sort(s), s) {
      SortSorts(s);
    }
  }

  /** The part of a sorted list that starts after a. */
  function Later(s: seq<Interval>, a: nat): (l: seq<Interval>)
    ensures |l| <= |s| && l == s[|s| - |l|..]
  {
    if s == [] || s[0].start > a then s else Later(s[1..], a)
  }

  /** After an unbounded interval any bounded one with its start, and then the later ones, or the
      later ones alone, must reach the top. */
  predicate FreeAt(s: seq<Interval>, i: nat)
    requires i < |s|
  {
    var l := Later(s, s[i].start);
    && (l != [] ==> Solid(l))
    && forall j :: 0 <= j < |s| && s[j].start == s[i].start && s[j].end.At? ==> l != [] && l[0].start <= s[j].end.v
  }

  predicate OrderFree(s: seq<Interval>) {
    forall i :: 0 <= i < |s| && s[i].end.Top? ==> FreeAt(s, i)
  }

  lemma {:induction false} LaterSplits(s: seq<Interval>, a: nat)
    requires Sorted(s)
    ensures var k := |s| - |Later(s, a)|;
      && (forall i :: 0 <= i < k ==> s[i].start <= a)
      && (forall i :: k <= i < |s| ==> s[i].start > a)
  {
    if s != [] && s[0].start <= a {
      LaterSplits(s[1..], a);
      assert forall i :: 0 < i < |s| ==> s[i] == s[1..][i - 1];
    }
  }

  lemma Members(t: seq<Interval>, s: seq<Interval>, i: nat) returns (j: nat)
    requires multiset(t) == multiset(s) && i < |t|
    ensures j < |s| && s[j] == t[i]
  {
    assert t[i] in multiset(s);
    assert t[i] in s;
    j :| 0 <= j < |s| && s[j] == t[i];
  }

  lemma BehindSmaller(t: seq<Interval>, v: nat, j: nat)
    requires Sorted(t) && 0 < v <= |t| && j < |t| && t[j].start > t[v - 1].start
    ensures v <= j
  {
  }

  /** What starts after an unbounded interval comes behind it in every sorted copy. */
  lemma LaterCovers(t: seq<Interval>, s: seq<Interval>, v: nat, x: nat)
    requires SortedCopy(t, s) && Sorted(s) && 0 < v <= |t|
    requires Covers(Later(s, t[v - 1].start), x)
    ensures Covers(t[v..], x)
  {
    var a := t[v - 1].start;
    var l := Later(s, a);
    var i :| 0 <= i < |l| && l[i].Has(x);
    LaterSplits(s, a);
    assert s[|s| - |l| + i] == l[i];
    var j := Members(s, t, |s| - |l| + i);
    BehindSmaller(t, v, j);
    assert t[v..][j - v] == t[j];
  }

  /** The later part starts no later than the next interval behind an unbounded one does. */
  lemma LaterStart(t: seq<Interval>, s: seq<Interval>, v: nat)
    requires SortedCopy(t, s) && Sorted(s) && 0 < v < |t| && t[v].start > t[v - 1].start
    ensures var l := Later(s, t[v - 1].start); l != [] && l[0].start <= t[v].start
  {
    LaterSplits(s, t[v - 1].start);
    var j := Members(t, s, v);
    assert j >= |s| - |Later(s, t[v - 1].start)|;
  }

  lemma FreeAtTie(s: seq<Interval>, i: nat, j: nat)
    requires i < |s| && j < |s| && FreeAt(s, i) && s[j].start == s[i].start && s[j].end.At?
    ensures var l := Later(s, s[i].start); l != [] && Solid(l) && l[0].start <= s[j].end.v
  {
  }

  lemma TieInReach(s: seq<Interval>, a: Interval, b: Interval, x: nat)
    requires OrderFree(s) && a in s && b in s && a.end.Top? && b.start == a.start <= x && !b.Has(x)
    ensures var l := Later(s, a.start); l != [] && Solid(l) && l[0].start <= x
  {
    var i :| 0 <= i < |s| && s[i] == a;
    var j :| 0 <= j < |s| && s[j] == b;
    FreeAtTie(s, i, j);
  }

  lemma Neighbours(t: seq<Interval>, v: nat)
    requires Sorted(t) && 0 < v < |t|
    ensures t[v - 1].start <= t[v].start
  {
  }

  lemma FreeOf(s: seq<Interval>, a: Interval)
    requires OrderFree(s) && a in s && a.end.Top?
    ensures var l := Later(s, a.start); l != [] ==> Solid(l)
  {
    var i :| 0 <= i < |s| && s[i] == a;
    assert FreeAt(s, i);
  }

  /** Behind an unbounded interval, what its successor leaves out lies in reach of the later ones. */
  lemma LaterInReach(t: seq<Interval>, s: seq<Interval>, v: nat, x: nat)
    requires SortedCopy(t, s) && Sorted(s) && OrderFree(s)
    requires 0 < v < |t| && t[v - 1].end.Top? && t[v].start <= x && !t[v].Has(x)
    ensures var l := Later(s, t[v - 1].start); l != [] && Solid(l) && l[0].start <= x
  {
    var i := Members(t, s, v - 1);
    var j := Members(t, s, v);
    Neighbours(t, v);
    if t[v].start > t[v - 1].start {
      LaterStart(t, s, v);
      FreeOf(s, s[i]);
    } else {
      TieInReach(s, s[i], s[j], x);
    }
  }

  lemma OrderFreeSuffix(t: seq<Interval>, s: seq<Interval>, v: nat, x: nat)
    requires SortedCopy(t, s) && Sorted(s) && OrderFree(s)
    requires 0 < v < |t| && t[v - 1].end.Top? && t[v].start <= x
    ensures Covers(t[v..], x)
  {
    if t[v].Has(x) {
      assert t[v..][0].Has(x);
    } else {
      var l := Later(s, t[v - 1].start);
      LaterInReach(t, s, v, x);
      ReachCovers(l[0].start, l, x);
      LaterCovers(t, s, v, x);
    }
  }

  lemma OrderFreeLossless(t: seq<Interval>, s: seq<Interval>)
    requires SortedCopy(t, s) && Sorted(s) && OrderFree(s)
    ensures Lossless(t)
  {
    forall v, x | 0 < v < |t| && t[v - 1].end.Top? && t[v].start <= x ensures CoversFrom(t, v, x) {
      OrderFreeSuffix(t, s, v, x);
      FromSuffix(t, v, x);
    }
    LosslessIff(t);
  }

  /** s with the element at i moved up in front of position k. */
  function MoveTo(s: seq<Interval>, i: nat, k: nat): seq<Interval>
    requires i < k <= |s|
  {
    s[..i] + s[i + 1..k] + [s[i]] + s[k..]
  }

  /** The elements from i up to k start alike. */
  ghost predicate Alike(s: seq<Interval>, i: nat, k: nat)
    requires i < k <= |s|
  {
    forall m :: i <= m < k ==> s[m].start == s[i].start
  }

  lemma MovedAt(s: seq<Interval>, i: nat, k: nat, m: nat)
    requires i < k <= |s| && m < |s|
    ensures |MoveTo(s, i, k)| == |s|
    ensures MoveTo(s, i, k)[m] == if m < i || m >= k then s[m] else if m < k - 1 then s[m + 1] else s[i]
  {
  }

  lemma MoveSame(s: seq<Interval>, i: nat, k: nat)
    requires i < k <= |s|
    ensures multiset(MoveTo(s, i, k)) == multiset(s)
  {
    assert s == s[..i] + [s[i]] + s[i + 1..k] + s[k..];
  }

  lemma MoveSorted(s: seq<Interval>, i: nat, k: nat)
    requires Sorted(s) && i < k <= |s| && Alike(s, i, k)
    ensures SortedCopy(MoveTo(s, i, k), s)
  {
    var t := MoveTo(s, i, k);
    MoveSame(s, i, k);
    forall m | 0 <= m < |s| ensures t[m].start == s[m].start {
      MovedAt(s, i, k, m);
    }
  }

  lemma MoveTail(s: seq<Interval>, i: nat, k: nat)
    requires i < k <= |s|
    ensures MoveTo(s, i, k)[k - 1] == s[i] && MoveTo(s, i, k)[k..] == s[k..]
    ensures MoveTo(s, i, k)[k - 1..] == [s[i]] + s[k..]
  {
  }

  /** Everything from an element up to the later part starts alike. */
  lemma LaterAlike(s: seq<Interval>, i: nat)
    requires Sorted(s) && i < |s|
    ensures i < |s| - |Later(s, s[i].start)| && Alike(s, i, |s| - |Later(s, s[i].start)|)
  {
    LaterSplits(s, s[i].start);
  }

  /** The order in which the unbounded interval at i comes last among its starts. */
  lemma UnboundedLast(s: seq<Interval>, i: nat) returns (t: seq<Interval>)
    requires Sorted(s) && i < |s|
    ensures var k := |s| - |Later(s, s[i].start)|;
      i < k && SortedCopy(t, s) && t == MoveTo(s, i, k) && t[k - 1] == s[i] && t[k..] == Later(s, s[i].start)
  {
    var k := |s| - |Later(s, s[i].start)|;
    LaterAlike(s, i);
    MoveSorted(s, i, k);
    MoveTail(s, i, k);
    t := MoveTo(s, i, k);
  }

  /** Where another element with that start is then. */
  lemma LastButOne(s: seq<Interval>, i: nat, j: nat, k: nat) returns (j': nat)
    requires Sorted(s) && i < k <= |s| && j < k && i != j && s[j].start == s[i].start && Alike(s, i, k)
    ensures var u := MoveTo(s, i, k); j' < k - 1 < |u| && u[j'] == s[j] && Alike(u, j', k)
  {
    j' := if j < i then j else j - 1;
    MovedAt(s, i, k, j');
    forall m | j' <= m < k ensures MoveTo(s, i, k)[m].start == s[i].start {
      MovedAt(s, i, k, m);
    }
  }

  lemma AlikeBefore(s: seq<Interval>, i: nat, j: nat)
    requires Sorted(s) && i < |s| && j < |s| && s[j].start == s[i].start
    ensures j < |s| - |Later(s, s[i].start)|
  {
    LaterSplits(s, s[i].start);
  }

  lemma MoveBehind(u: seq<Interval>, j: nat, k: nat) returns (t: seq<Interval>)
    requires Sorted(u) && j < k - 1 < |u| && Alike(u, j, k)
    ensures SortedCopy(t, u) && |t| == |u| && t[k - 2] == u[k - 1] && t[k - 1..] == [u[j]] + u[k..]
  {
    MoveSorted(u, j, k);
    MoveTail(u, j, k);
    MovedAt(u, j, k, k - 2);
    t := MoveTo(u, j, k);
  }

  /** The order in which j comes right behind it. */
  lemma UnboundedThen(s: seq<Interval>, i: nat, j: nat) returns (t: seq<Interval>)
    requires Sorted(s) && i < |s| && j < |s| && i != j && s[j].start == s[i].start
    ensures var k := |s| - |Later(s, s[i].start)|;
      1 < k <= |t| && SortedCopy(t, s) && t[k - 2] == s[i] && t[k - 1..] == [s[j]] + Later(s, s[i].start)
  {
    var k := |s| - |Later(s, s[i].start)|;
    LaterAlike(s, i);
    AlikeBefore(s, i, j);
    var u := UnboundedLast(s, i);
    var j' := LastButOne(s, i, j, k);
    t := MoveBehind(u, j', k);
  }

  /** Merging is lossless in every order of equal starts exactly when the list passes this test. */
  lemma EveryOrderLossless(ivs: seq<Interval>, s: seq<Interval>)
    requires SortedCopy(s, ivs)
    ensures OrderFree(s) <==> forall t :: SortedCopy(t, ivs) ==> Lossless(t)
  {
    if OrderFree(s) {
      forall t | SortedCopy(t, ivs) ensures Lossless(t) {
        OrderFreeLossless(t, s);
      }
    } else {
      var t := LossyOrder(s);
      assert SortedCopy(t, ivs) && !Lossless(t);
    }
  }

  /** A list that fails the test has an order in which merging loses an address. */
  lemma LossyOrder(s: seq<Interval>) returns (t: seq<Interval>)
    requires Sorted(s) && !OrderFree(s)
    ensures SortedCopy(t, s) && !Lossless(t)
  {
    var i :| 0 <= i < |s| && s[i].end.Top? && !FreeAt(s, i);
    var l := Later(s, s[i].start);
    if l != [] && !Solid(l) {
      t := LossyLast(s, i);
    } else {
      var j :| 0 <= j < |s| && s[j].start == s[i].start && s[j].end.At? && !(l != [] && l[0].start <= s[j].end.v);
      t := LossyPair(s, i, j);
    }
  }

  lemma LossyLast(s: seq<Interval>, i: nat) returns (t: seq<Interval>)
    requires Sorted(s) && i < |s| && s[i].end.Top?
    requires var l := Later(s, s[i].start); l != [] && !Solid(l)
    ensures SortedCopy(t, s) && !Lossless(t)
  {
    var k := |s| - |Later(s, s[i].start)|;
    t := UnboundedLast(s, i);
    assert 0 < k < |t| && t[k - 1].end.Top? && !Solid(t[k..]);
  }

  lemma LossyPair(s: seq<Interval>, i: nat, j: nat) returns (t: seq<Interval>)
    requires Sorted(s) && i < |s| && j < |s| && s[i].end.Top? && s[j].start == s[i].start && s[j].end.At?
    requires var l := Later(s, s[i].start); !(l != [] && l[0].start <= s[j].end.v)
    ensures SortedCopy(t, s) && !Lossless(t)
  {
    var l := Later(s, s[i].start);
    var k := |s| - |l|;
    t := UnboundedThen(s, i, j);
    LaterSplits(s, s[i].start);
    assert l != [] ==> l[0] == s[k];
    NotSolid(s[j], l);
    assert 0 < k - 1 < |t| && t[k - 2].end.Top? && !Solid(t[k - 1..]);
  }

  lemma NotSolid(b: Interval, l: seq<Interval>)
    requires b.end.At? && !(l != [] && l[0].start <= b.end.v) && (l != [] ==> b.start < l[0].start)
    ensures !Solid([b] + l)
  {
    var r := if b.end.v > b.start then b.end.v else b.start;
    assert ([b] + l)[1..] == l && !ReachesTop(r, l);
  }

  // ---- lists that lose addresses ------------------------------------------------------------

  lemma TwoInOrder(a: Interval, b: Interval, s: seq<Interval>)
    requires a.start < b.start && SortedCopy(s, [a, b])
    ensures s == [a, b]
  {
    assert |multiset(s)| == |multiset([a, b])| == 2;
    var i := Members([a, b], s, 0);
    var j := Members([a, b], s, 1);
    assert i != j;
  }

  /** 0.0.0.0/0 with 0.0.0.5/32 merges to [0, 6): address 7 is lost. */
  lemma MergeLosesAddresses(s: seq<Interval>)
    requires SortedCopy(s, [Interval(0, Top), Interval(5, At(6))])
    ensures Covers(s, 7) && !Covers(Compact(s), 7)
  {
    var a, b := Interval(0, Top), Interval(5, At(6));
    TwoInOrder(a, b, s);
    assert s[0].Has(7);
    assert s[..1] == [a];
    assert Compact(s) == [Interval(0, At(6))];
  }

  /** Of two intervals with one start, the order decides: behind the bounded one the unbounded
      one survives, in front of it 200 is lost. */
  lemma TieOrderDecides()
    ensures var a, b := Interval(192, At(193)), Interval(192, Top);
      && SortedCopy([a, b], [a, b]) && SortedCopy([b, a], [a, b])
      && Covers(Compact([a, b]), 200) && !Covers(Compact([b, a]), 200)
      && !OrderFree([a, b])
  {
    var a, b := Interval(192, At(193)), Interval(192, Top);
    TwoMerged(a, b);
    TwoMerged(b, a);
    assert [b][0].Has(200);
    assert SortedCopy([a, b], [a, b]);
    OneStart(a, b);
  }

  lemma TwoMerged(a: Interval, b: Interval)
    requires Touches(a, b)
    ensures Compact([a, b]) == [a.(end := NewEnd(a, b))]
  {
    assert [a, b][..1] == [a];
  }

  lemma OneStart(a: Interval, b: Interval)
    requires a.start == b.start && a.end.At? && b.end.Top?
    ensures !OrderFree([a, b])
  {
    var s := [a, b];
    LaterSplits(s, a.start);
    assert Later(s, a.start) == [];
    assert s[0].start == s[1].start && s[0].end.At?;
    assert !FreeAt(s, 1);
  }
}
