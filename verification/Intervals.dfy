/** The address intervals of a set, merged in place before the kernel sees them. */
module Intervals {
  import opened Cidr

  /** The addresses start <= x < end of one family, as numbers. */
  datatype Interval = Interval(start: nat, end: Bound) {
    predicate Has(x: nat) {
      start <= x && Below(x, end)
    }

    predicate NonEmpty() {
      Below(start, end)
    }
  }

  ghost predicate Covers(s: seq<Interval>, x: nat) {
    exists i :: 0 <= i < |s| && s[i].Has(x)
  }

  ghost predicate CoversFrom(s: seq<Interval>, k: nat, x: nat) {
    exists i :: k <= i < |s| && s[i].Has(x)
  }

  ghost predicate AllNonEmpty(s: seq<Interval>) {
    forall i :: 0 <= i < |s| ==> s[i].NonEmpty()
  }

  ghost predicate Sorted(s: seq<Interval>) {
    forall i, j :: 0 <= i < j < |s| ==> s[i].start <= s[j].start
  }

  /** Strictly increasing with a gap after each interval, so only the last may be unbounded. */
  ghost predicate Separated(s: seq<Interval>) {
    forall i, j :: 0 <= i < j < |s| ==> s[i].end.At? && s[i].end.v < s[j].start
  }

  // ---- sorting by start ----------------------------------------------------------

  /** t is s in start order, with any order among equal starts. */
  ghost predicate SortedCopy(t: seq<Interval>, s: seq<Interval>) {
    Sorted(t) && multiset(t) == multiset(s)
  }

  /** The order the library sort leaves a slice in. */
  type Sorting = seq<Interval> -> seq<Interval>

  ghost predicate IsSorting(sort: Sorting) {
    forall s :: SortedCopy(sort(s), s)
  }

  function InsertByStart(s: seq<Interval>, iv: Interval): seq<Interval> {
    if s == [] || s[|s| - 1].start <= iv.start then s + [iv]
    else InsertByStart(s[..|s| - 1], iv) + [s[|s| - 1]]
  }

  function SortByStart(s: seq<Interval>): (r: seq<Interval>) {
    if s == [] then [] else InsertByStart(SortByStart(s[..|s| - 1]), s[|s| - 1])
  }

  lemma {:induction false} InsertSorts(s: seq<Interval>, iv: Interval)
    requires Sorted(s)
    ensures var r := InsertByStart(s, iv);
      Sorted(r) && multiset(r) == multiset(s) + multiset{iv}
  {
    if s != [] && s[|s| - 1].start > iv.start {
      var init, last := s[..|s| - 1], s[|s| - 1];
      assert s == init + [last];
      InsertSorts(init, iv);
      var r := InsertByStart(init, iv);
      forall i | 0 <= i < |r| ensures r[i].start <= last.start {
        assert r[i] in multiset(r);
        assert r[i] in init || r[i] == iv;
      }
    }
  }

  lemma {:induction false} SortSorts(s: seq<Interval>)
    ensures Sorted(SortByStart(s)) && multiset(SortByStart(s)) == multiset(s)
  {
    if s != [] {
      SortSorts(s[..|s| - 1]);
      InsertSorts(SortByStart(s[..|s| - 1]), s[|s| - 1]);
      assert s == s[..|s| - 1] + [s[|s| - 1]];
    }
  }

  lemma SameMembers(s: seq<Interval>, t: seq<Interval>)
    requires multiset(s) == multiset(t)
    ensures forall x :: Covers(s, x) <==> Covers(t, x)
    ensures AllNonEmpty(s) <==> AllNonEmpty(t)
  {
    MembersInto(s, t);
    MembersInto(t, s);
  }

  lemma MembersInto(s: seq<Interval>, t: seq<Interval>)
    requires multiset(s) == multiset(t)
    ensures forall x :: Covers(s, x) ==> Covers(t, x)
    ensures AllNonEmpty(t) ==> AllNonEmpty(s)
  {
    forall i | 0 <= i < |s| ensures s[i] in t {
      assert s[i] in multiset(t);
    }
    forall x | Covers(s, x) ensures Covers(t, x) {
      var i :| 0 <= i < |s| && s[i].Has(x);
      var j :| 0 <= j < |t| && t[j] == s[i];
      assert t[j].Has(x);
    }
  }

  // ---- compaction ------------------------------------------------------------------

  /** Whether the next interval starts no later than the last kept one ends. */
  predicate Touches(last: Interval, iv: Interval) {
    last.end.Top? || iv.start <= last.end.v
  }

  /** The end the last kept interval gets. An unbounded last takes over iv's end. */
  function NewEnd(last: Interval, iv: Interval): Bound {
    if last.end.Top? || iv.end.Top? || iv.end.v > last.end.v then iv.end else last.end
  }

  /** The kept prefix after one more interval. */
  function Keep(kept: seq<Interval>, iv: Interval): seq<Interval>
    requires kept != []
  {
    var last := kept[|kept| - 1];
    if Touches(last, iv) then kept[|kept| - 1 := last.(end := NewEnd(last, iv))] else kept + [iv]
  }

  function Compact(s: seq<Interval>): (r: seq<Interval>)
    ensures s != [] ==> r != []
    ensures |r| <= |s|
  {
    if |s| <= 1 then s else Keep(Compact(s[..|s| - 1]), s[|s| - 1])
  }

  /** Stands for the library sort, whose order among equal starts is its own. */
  method SortSlice(ivs: array<Interval>, sort: Sorting)
    requires IsSorting(sort)
    modifies ivs
    ensures ivs[..] == sort(old(ivs[..]))
  {
    var sorted := sort(ivs[..]);
    assert |sorted| == ivs.Length by {
      assert SortedCopy(sort(ivs[..]), ivs[..]);
      assert |multiset(sorted)| == |multiset(ivs[..])|;
    }
    forall i | 0 <= i < ivs.Length {
      ivs[i] := sorted[i];
    }
  }

  /** Compacts within the array itself: each element is read before its slot is written. */
  method CompactInPlace(ivs: array<Interval>) returns (n: nat)
    requires ivs.Length > 0
    modifies ivs
    ensures n <= ivs.Length && ivs[..n] == Compact(old(ivs[..]))
  {
    ghost var s := ivs[..];
    n := 1;
    for i := 1 to ivs.Length
      invariant 1 <= n <= i
      invariant ivs[..n] == Compact(s[..i])
      invariant forall j :: i <= j < ivs.Length ==> ivs[j] == s[j]
    {
      ghost var kept := ivs[..n];
      assert s[..i + 1][..i] == s[..i];
      var iv, last := ivs[i], ivs[n - 1];
      if last.end.At? && iv.start > last.end.v {
        ivs[n] := iv;
        n := n + 1;
        assert ivs[..n] == kept + [iv];
      } else {
        if last.end.Top? || iv.end.Top? || iv.end.v > last.end.v {
          ivs[n - 1] := last.(end := iv.end);
        }
        assert ivs[..n] == kept[n - 1 := last.(end := NewEnd(last, iv))];
      }
    }
    assert s[..ivs.Length] == s;
  }

  method MergeAddrIntervals(ivs: array<Interval>, sort: Sorting) returns (n: nat)
    requires IsSorting(sort)
    modifies ivs
    ensures n <= ivs.Length && ivs[..n] == Compact(sort(old(ivs[..])))
  {
    if ivs.Length == 0 {
      assert SortedCopy(sort(ivs[..]), ivs[..]);
      return 0;
    }
    SortSlice(ivs, sort);
    n := CompactInPlace(ivs);
  }

  // ---- what compaction keeps ---------------------------------------------------------

  lemma CoversSnoc(s: seq<Interval>, iv: Interval, x: nat)
    ensures Covers(s + [iv], x) <==> Covers(s, x) || iv.Has(x)
  {
    var t := s + [iv];
    if iv.Has(x) {
      assert t[|s|].Has(x);
    }
    if Covers(s, x) {
      var i :| 0 <= i < |s| && s[i].Has(x);
      assert t[i].Has(x);
    }
  }

  /** Compaction always separates the intervals. */
  lemma {:induction false} CompactSeparates(s: seq<Interval>)
    requires Sorted(s) && AllNonEmpty(s) && s != []
    ensures var r := Compact(s); Separated(r) && AllNonEmpty(r) && r[|r| - 1].start <= s[|s| - 1].start
  {
    if |s| > 1 {
      var t, iv := s[..|s| - 1], s[|s| - 1];
      assert s == t + [iv];
      CompactSeparates(t);
      KeepSeparates(Compact(t), iv);
    }
  }

  /** Compaction never adds an address. */
  lemma {:induction false} CompactNarrows(s: seq<Interval>, x: nat)
    requires Sorted(s) && AllNonEmpty(s) && s != [] && Covers(Compact(s), x)
    ensures Covers(s, x)
  {
    if |s| > 1 {
      var t, iv := s[..|s| - 1], s[|s| - 1];
      assert s == t + [iv];
      CompactSeparates(t);
      KeepNarrows(Compact(t), iv, x);
      if Covers(Compact(t), x) {
        CompactNarrows(t, x);
      }
      CoversSnoc(t, iv, x);
    }
  }

  lemma KeepSeparates(kept: seq<Interval>, iv: Interval)
    requires kept != [] && Separated(kept) && AllNonEmpty(kept) && iv.NonEmpty()
    requires kept[|kept| - 1].start <= iv.start
    ensures var r := Keep(kept, iv);
      Separated(r) && AllNonEmpty(r) && r[|r| - 1].start <= iv.start
  {
  }

  lemma KeepNarrows(kept: seq<Interval>, iv: Interval, x: nat)
    requires kept != [] && kept[|kept| - 1].start <= iv.start
    requires Covers(Keep(kept, iv), x)
    ensures Covers(kept, x) || iv.Has(x)
  {
    var init, last := kept[..|kept| - 1], kept[|kept| - 1];
    assert kept == init + [last];
    CoversSnoc(init, last, x);
    if Touches(last, iv) {
      var last' := last.(end := NewEnd(last, iv));
      assert Keep(kept, iv) == init + [last'];
      CoversSnoc(init, last', x);
    } else {
      CoversSnoc(kept, iv, x);
    }
  }

  // ---- which addresses survive ---------------------------------------------------------

  /** x is covered, and after every unbounded interval that is not the last one, x either
      lies before the next start or is covered again from there on. */
  ghost predicate Kept(s: seq<Interval>, x: nat) {
    && Covers(s, x)
    && forall v :: 0 < v < |s| && s[v - 1].end.Top? && s[v].start <= x ==> CoversFrom(s, v, x)
  }

  lemma {:induction false} LastUnbounded(s: seq<Interval>)
    requires s != []
    ensures var r := Compact(s); r[|r| - 1].end.Top? <==> s[|s| - 1].end.Top?
  {
    if |s| > 1 {
      LastUnbounded(s[..|s| - 1]);
    }
  }

  /** Exactly which addresses the merged list still covers. */
  lemma {:induction false} CompactKeeps(s: seq<Interval>, x: nat)
    requires Sorted(s) && AllNonEmpty(s)
    ensures Covers(Compact(s), x) <==> Kept(s, x)
  {
    if |s| > 1 {
      var t, iv := s[..|s| - 1], s[|s| - 1];
      assert s == t + [iv];
      CompactKeeps(t, x);
      CompactSeparates(t);
      LastUnbounded(t);
      if t[|t| - 1].end.Top? {
        KeepAfterUnbounded(Compact(t), iv, x);
        KeptAfterUnbounded(t, iv, x);
      } else {
        KeepAfterBounded(Compact(t), iv, x);
        KeptAfterBounded(t, iv, x);
      }
    }
  }

  lemma KeepAfterBounded(kept: seq<Interval>, iv: Interval, x: nat)
    requires kept != [] && kept[|kept| - 1].end.At? && kept[|kept| - 1].start <= iv.start
    ensures Covers(Keep(kept, iv), x) <==> Covers(kept, x) || iv.Has(x)
  {
    var init, last := kept[..|kept| - 1], kept[|kept| - 1];
    assert kept == init + [last];
    CoversSnoc(init, last, x);
    if Touches(last, iv) {
      var last' := last.(end := NewEnd(last, iv));
      assert Keep(kept, iv) == init + [last'];
      CoversSnoc(init, last', x);
    } else {
      CoversSnoc(kept, iv, x);
    }
  }

  lemma KeepAfterUnbounded(kept: seq<Interval>, iv: Interval, x: nat)
    requires kept != [] && kept[|kept| - 1].end.Top? && kept[|kept| - 1].start <= iv.start
    requires Separated(kept) && iv.NonEmpty()
    ensures Covers(Keep(kept, iv), x) <==> Covers(kept, x) && Below(x, iv.end)
  {
    var init, last := kept[..|kept| - 1], kept[|kept| - 1];
    assert kept == init + [last];
    var last' := last.(end := iv.end);
    assert Keep(kept, iv) == init + [last'];
    CoversSnoc(init, last, x);
    CoversSnoc(init, last', x);
  }

  lemma FromSnoc(t: seq<Interval>, iv: Interval, k: nat, x: nat)
    requires k <= |t|
    ensures CoversFrom(t + [iv], k, x) <==> CoversFrom(t, k, x) || iv.Has(x)
  {
    var s := t + [iv];
    if iv.Has(x) {
      assert s[|t|].Has(x);
    }
    if CoversFrom(t, k, x) {
      var i :| k <= i < |t| && t[i].Has(x);
      assert s[i].Has(x);
    }
  }

  lemma KeptAfterBounded(t: seq<Interval>, iv: Interval, x: nat)
    requires t != [] && t[|t| - 1].end.At?
    ensures Kept(t + [iv], x) <==> Kept(t, x) || iv.Has(x)
  {
    var s := t + [iv];
    CoversSnoc(t, iv, x);
    forall v | 0 < v <= |t| ensures CoversFrom(s, v, x) <==> CoversFrom(t, v, x) || iv.Has(x) {
      FromSnoc(t, iv, v, x);
    }
    if Kept(s, x) && !iv.Has(x) {
      forall v | 0 < v < |t| && t[v - 1].end.Top? && t[v].start <= x ensures CoversFrom(t, v, x) {
        assert s[v - 1].end.Top? && s[v].start <= x;
      }
    }
  }

  lemma KeptAfterUnbounded(t: seq<Interval>, iv: Interval, x: nat)
    requires t != [] && t[|t| - 1].end.Top? && t[|t| - 1].start <= iv.start && iv.NonEmpty()
    ensures Kept(t + [iv], x) <==> Kept(t, x) && Below(x, iv.end)
  {
    var s, m := t + [iv], |t|;
    CoversSnoc(t, iv, x);
    if iv.Has(x) {
      assert t[m - 1].Has(x);
    }
    forall v | 0 < v < m ensures CoversFrom(s, v, x) <==> CoversFrom(t, v, x) {
      FromSnoc(t, iv, v, x);
    }
    FromSnoc(t, iv, m, x);
    if Kept(s, x) {
      assert s[m - 1].end.Top?;
      forall v | 0 < v < m && t[v - 1].end.Top? && t[v].start <= x ensures CoversFrom(t, v, x) {
        assert s[v - 1].end.Top? && s[v].start <= x;
      }
    }
  }

  /** Every unbounded interval that is not last is redundant from the next start on. */
  ghost predicate UnboundedRedundant(s: seq<Interval>) {
    forall v, x :: 0 < v < |s| && s[v - 1].end.Top? && s[v].start <= x ==> CoversFrom(s, v, x)
  }

  // ---- the test on the list --------------------------------------------------------------

  /** In start order and from reach on, the intervals leave no gap up to the top. */
  predicate ReachesTop(reach: nat, s: seq<Interval>)
    decreases |s|
  {
    if s == [] || s[0].start > reach then false
    else if s[0].end.Top? then true
    else ReachesTop(if s[0].end.v > reach then s[0].end.v else reach, s[1..])
  }

  predicate Solid(s: seq<Interval>) {
    s != [] && ReachesTop(s[0].start, s)
  }

  /** What follows an unbounded interval covers everything from there to the top. */
  predicate Lossless(s: seq<Interval>) {
    forall v :: 0 < v < |s| && s[v - 1].end.Top? ==> Solid(s[v..])
  }

  lemma CoversHead(s: seq<Interval>, x: nat)
    requires s != []
    ensures Covers(s, x) <==> s[0].Has(x) || Covers(s[1..], x)
  {
    assert forall i :: 0 < i < |s| ==> s[i] == s[1..][i - 1];
    assert forall i :: 0 <= i < |s[1..]| ==> s[1..][i] == s[i + 1];
  }

  lemma {:induction false} ReachCovers(reach: nat, s: seq<Interval>, x: nat)
    requires ReachesTop(reach, s) && reach <= x
    ensures Covers(s, x)
    decreases |s|
  {
    CoversHead(s, x);
    if s[0].end.At? && s[0].end.v <= x {
      ReachCovers(if s[0].end.v > reach then s[0].end.v else reach, s[1..], x);
    }
  }

  /** A list that does not reach the top leaves an address out. */
  lemma {:induction false} ReachGap(reach: nat, s: seq<Interval>) returns (x: nat)
    requires Sorted(s) && !ReachesTop(reach, s)
    ensures reach <= x && !Covers(s, x)
    decreases |s|
  {
    if s == [] || s[0].start > reach {
      x := reach;
    } else {
      x := ReachGap(if s[0].end.v > reach then s[0].end.v else reach, s[1..]);
      CoversHead(s, x);
    }
  }

  lemma FromSuffix(s: seq<Interval>, v: nat, x: nat)
    requires v <= |s|
    ensures CoversFrom(s, v, x) <==> Covers(s[v..], x)
  {
    assert forall i :: v <= i < |s| ==> s[i] == s[v..][i - v];
    assert forall i :: 0 <= i < |s[v..]| ==> s[v..][i] == s[i + v];
  }

  lemma LosslessIff(s: seq<Interval>)
    requires Sorted(s)
    ensures Lossless(s) <==> UnboundedRedundant(s)
  {
    if Lossless(s) {
      forall v, x | 0 < v < |s| && s[v - 1].end.Top? && s[v].start <= x ensures CoversFrom(s, v, x) {
        ReachCovers(s[v].start, s[v..], x);
        FromSuffix(s, v, x);
      }
    } else {
      var v :| 0 < v < |s| && s[v - 1].end.Top? && !Solid(s[v..]);
      var x := ReachGap(s[v].start, s[v..]);
      FromSuffix(s, v, x);
    }
  }

  /** Merging loses no address exactly when the sorted list passes the test. */
  lemma MergeExactIff(s: seq<Interval>)
    requires Sorted(s) && AllNonEmpty(s)
    ensures (forall x :: Covers(Compact(s), x) <==> Covers(s, x)) <==> Lossless(s)
  {
    LosslessIff(s);
    forall x ensures Covers(Compact(s), x) <==> Kept(s, x) {
      CompactKeeps(s, x);
    }
    if forall x :: Covers(Compact(s), x) <==> Covers(s, x) {
      forall v, x | 0 < v < |s| && s[v - 1].end.Top? && s[v].start <= x
        ensures CoversFrom(s, v, x)
      {
        assert s[v - 1].Has(x);
        assert Covers(s, x);
        assert Kept(s, x);
      }
    }
  }

  /** A list that fails the test loses an address below any bound that its ends respect. */
  lemma LostBelow(s: seq<Interval>, top: nat) returns (x: nat)
    requires Sorted(s) && !Lossless(s)
    requires forall i :: 0 <= i < |s| ==> s[i].start < top && (s[i].end.At? ==> s[i].end.v < top)
    ensures x < top && Covers(s, x) && !Kept(s, x)
  {
    var v :| 0 < v < |s| && s[v - 1].end.Top? && !Solid(s[v..]);
    x := ReachGap(s[v].start, s[v..]);
    if x >= top {
      forall i | v <= i < |s| ensures s[i].end.At? {
        assert s[v..][i - v] == s[i] && !s[v..][i - v].Has(x);
      }
      x := top - 1;
      FromSuffix(s, v, x);
    }
    FromSuffix(s, v, x);
    assert s[v - 1].Has(x);
  }

  /** Without an interval reaching the top of the space, merging keeps the union. */
  lemma MergeBounded(ivs: seq<Interval>, s: seq<Interval>, x: nat)
    requires AllNonEmpty(ivs) && SortedCopy(s, ivs)
    requires forall i :: 0 <= i < |ivs| ==> ivs[i].end.At?
    ensures Separated(Compact(s))
    ensures Covers(Compact(s), x) <==> Covers(ivs, x)
  {
    SameMembers(s, ivs);
    forall i | 0 <= i < |s| ensures s[i].end.At? {
      assert s[i] in multiset(s);
      assert s[i] in ivs;
    }
    if s != [] {
      CompactSeparates(s);
    }
    CompactKeeps(s, x);
  }
}
