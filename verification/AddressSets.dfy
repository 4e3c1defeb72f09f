/** Compiled address sets hold the merged intervals of their elements, byte for byte. */
module AddressSets {
  import opened Bits
  import opened Bytes
  import opened Cidr
  import opened Intervals
  import opened TieOrder
  import opened Rules
  import opened Nft
  import opened Compile
  import opened CompileMatch

  /** What a list of elements means: membership in one of the prefixes. */
  ghost predicate SomeElementHas(es: seq<Ip>, addr: seq<Byte>) {
    exists i :: 0 <= i < |es| && IsAddress(es[i]) && InPrefix(es[i].bytes, es[i].ones, addr)
  }

  /** Interval bounds that fit n-byte keys; a finite end is never zero. */
  ghost predicate Fits(ivs: seq<Interval>, n: nat) {
    forall i :: 0 <= i < |ivs| ==>
      ivs[i].start < Pow2(8 * n) && (ivs[i].end.At? ==> 0 < ivs[i].end.v < Pow2(8 * n))
  }

  lemma {:induction false} ElemsExact(ivs: seq<Interval>, n: nat, key: seq<Byte>)
    requires Fits(ivs, n) && |key| == n
    ensures SetHas(SetBody(AddressElems(ivs, n), true), key) <==> Covers(ivs, Val(key))
  {
    if ivs != [] {
      var iv, rest := ivs[0], AddressElems(ivs[1..], n);
      var s, e := Elem(Encode(iv.start, n), false), Elem(BoundKey(iv.end, n), true);
      assert AddressElems(ivs, n) == [s, e] + rest;
      PairInFront(s, e, rest, key);
      assert Fits(ivs[1..], n) by {
        assert forall i :: 0 <= i < |ivs[1..]| ==> ivs[1..][i] == ivs[i + 1];
      }
      ElemsExact(ivs[1..], n, key);
      PairExact(iv, n, key);
      CoversHead(ivs, Val(key));
    }
  }

  lemma PairExact(iv: Interval, n: nat, key: seq<Byte>)
    requires |key| == n && iv.start < Pow2(8 * n) && (iv.end.At? ==> 0 < iv.end.v < Pow2(8 * n))
    ensures PairHas(Elem(Encode(iv.start, n), false), Elem(BoundKey(iv.end, n), true), key) <==> iv.Has(Val(key))
  {
    ValEncode(iv.start, n);
    ValZeros(n);
    if iv.end.At? {
      ValEncode(iv.end.v, n);
    }
  }

  // ---- bounds survive sorting and compaction ------------------------------------------

  lemma FitsMembers(s: seq<Interval>, t: seq<Interval>, n: nat)
    requires multiset(s) == multiset(t) && Fits(t, n)
    ensures Fits(s, n)
  {
    forall i | 0 <= i < |s|
      ensures s[i].start < Pow2(8 * n) && (s[i].end.At? ==> 0 < s[i].end.v < Pow2(8 * n))
    {
      assert s[i] in multiset(s);
      assert s[i] in t;
    }
  }

  lemma {:induction false} FitsCompact(s: seq<Interval>, n: nat)
    requires Fits(s, n)
    ensures Fits(Compact(s), n)
  {
    if |s| > 1 {
      assert Fits(s[..|s| - 1], n);
      FitsCompact(s[..|s| - 1], n);
    }
  }

  // ---- elements ---------------------------------------------------------------------------

  lemma {:induction false} FamilyFits(es: seq<Ip>, n: nat)
    ensures Fits(FamilyIntervals(es, n), n) && AllNonEmpty(FamilyIntervals(es, n))
  {
    if es != [] {
      FamilyFits(es[1..], n);
      if IsAddress(es[0]) && |es[0].bytes| == n {
        BlockBounds(es[0].bytes, es[0].ones);
      }
    }
  }

  lemma BlockBounds(net: seq<Byte>, ones: nat)
    requires ones <= 8 * |net| && Canonical(net, ones)
    ensures Val(net) < Pow2(8 * |net|)
    ensures BlockEnd(net, ones).At? ==> Val(net) < BlockEnd(net, ones).v < Pow2(8 * |net|)
  {
    ValBound(net);
    BlockFits(Val(net), 8 * |net| - ones, 8 * |net|);
  }

  lemma {:induction false} FamilyExact(es: seq<Ip>, addr: seq<Byte>)
    ensures Covers(FamilyIntervals(es, |addr|), Val(addr)) <==> SomeElementHas(es, addr)
  {
    if es != [] {
      var n := |addr|;
      FamilyExact(es[1..], addr);
      assert forall i :: 0 < i < |es| ==> es[i] == es[1..][i - 1];
      assert forall i :: 0 <= i < |es[1..]| ==> es[1..][i] == es[i + 1];
      if IsAddress(es[0]) && |es[0].bytes| == n {
        IntervalExact(es[0].bytes, es[0].ones, addr);
        var ivs := FamilyIntervals(es, n);
        assert ivs[1..] == FamilyIntervals(es[1..], n);
        CoversHead(ivs, Val(addr));
      } else {
        assert FamilyIntervals(es, n) == FamilyIntervals(es[1..], n);
      }
    }
  }

  /** A compiled set has exactly the merged addresses: nothing is added, and an address of
      an element is missing iff merging dropped it. */
  lemma AddressSetExact(es: seq<Ip>, addr: seq<Byte>, sort: Sorting)
    requires IsSorting(sort)
    ensures SetHas(AddressSet(es, |addr|, sort), addr) <==> Kept(sort(FamilyIntervals(es, |addr|)), Val(addr))
    ensures SetHas(AddressSet(es, |addr|, sort), addr) ==> SomeElementHas(es, addr)
  {
    var s := SortedFamily(es, |addr|, sort);
    FitsCompact(s, |addr|);
    ElemsExact(Compact(s), |addr|, addr);
    CompactKeeps(s, Val(addr));
    SortedFamilyExact(es, addr, sort);
  }

  lemma SortedFamily(es: seq<Ip>, n: nat, sort: Sorting) returns (s: seq<Interval>)
    requires IsSorting(sort)
    ensures s == sort(FamilyIntervals(es, n)) && SortedCopy(s, FamilyIntervals(es, n))
    ensures Fits(s, n) && AllNonEmpty(s)
  {
    var ivs := FamilyIntervals(es, n);
    s := sort(ivs);
    FamilyFits(es, n);
    assert SortedCopy(sort(ivs), ivs);
    SameMembers(s, ivs);
    FitsMembers(s, ivs, n);
  }

  lemma SortedFamilyExact(es: seq<Ip>, addr: seq<Byte>, sort: Sorting)
    requires IsSorting(sort)
    ensures Covers(sort(FamilyIntervals(es, |addr|)), Val(addr)) <==> SomeElementHas(es, addr)
  {
    var s := SortedFamily(es, |addr|, sort);
    FamilyExact(es, addr);
    SameMembers(s, FamilyIntervals(es, |addr|));
  }

  /** After each element that reaches the top, the next ones in order leave no gap to it. */
  predicate MergesExactly(es: seq<Ip>, n: nat, sort: Sorting) {
    Lossless(sort(FamilyIntervals(es, n)))
  }

  lemma ExactMeaning(es: seq<Ip>, addr: seq<Byte>, sort: Sorting)
    requires IsSorting(sort) && MergesExactly(es, |addr|, sort)
    ensures SetHas(AddressSet(es, |addr|, sort), addr) <==> SomeElementHas(es, addr)
  {
    var s := SortedFamily(es, |addr|, sort);
    AddressSetExact(es, addr, sort);
    SortedFamilyExact(es, addr, sort);
    LosslessIff(s);
    RedundantKept(s, Val(addr));
  }

  lemma RedundantKept(s: seq<Interval>, x: nat)
    requires UnboundedRedundant(s)
    ensures Kept(s, x) <==> Covers(s, x)
  {
  }

  /** When the test fails, some address of an element is not in the set. */
  lemma LostAddress(es: seq<Ip>, n: nat, sort: Sorting) returns (addr: seq<Byte>)
    requires IsSorting(sort) && !MergesExactly(es, n, sort)
    ensures |addr| == n && SomeElementHas(es, addr) && !SetHas(AddressSet(es, n, sort), addr)
  {
    var s := SortedFamily(es, n, sort);
    var x := LostBelow(s, Pow2(8 * n));
    addr := Encode(x, n);
    ValEncode(x, n);
    AddressSetExact(es, addr, sort);
    SortedFamilyExact(es, addr, sort);
  }

  /** A compiled set means what its elements say exactly when the sorted elements pass the test. */
  lemma AddressSetMeaning(es: seq<Ip>, n: nat, sort: Sorting)
    requires IsSorting(sort)
    ensures (forall addr: seq<Byte> :: |addr| == n ==> (SetHas(AddressSet(es, n, sort), addr) <==> SomeElementHas(es, addr)))
      <==> MergesExactly(es, n, sort)
  {
    if MergesExactly(es, n, sort) {
      forall addr: seq<Byte> | |addr| == n
        ensures SetHas(AddressSet(es, n, sort), addr) <==> SomeElementHas(es, addr)
      {
        ExactMeaning(es, addr, sort);
      }
    } else {
      var addr := LostAddress(es, n, sort);
    }
  }

  /** The test that no order of equal starts can spoil. */
  predicate MergesInAnyOrder(es: seq<Ip>, n: nat) {
    OrderFree(SortByStart(FamilyIntervals(es, n)))
  }

  /** Every sort that the library may be merges exactly, if and only if that test holds. */
  lemma AnyOrderExact(es: seq<Ip>, n: nat)
    ensures MergesInAnyOrder(es, n) <==> forall sort: Sorting :: IsSorting(sort) ==> MergesExactly(es, n, sort)
  {
    var ivs := FamilyIntervals(es, n);
    SortSorts(ivs);
    EveryOrderLossless(ivs, SortByStart(ivs));
    if MergesInAnyOrder(es, n) {
      forall sort: Sorting | IsSorting(sort) ensures MergesExactly(es, n, sort) {
        assert SortedCopy(sort(ivs), ivs);
      }
    } else {
      var sort := SpoilingSort(es, n);
    }
  }

  lemma SpoilingSort(es: seq<Ip>, n: nat) returns (sort: Sorting)
    requires !MergesInAnyOrder(es, n)
    ensures IsSorting(sort) && !MergesExactly(es, n, sort)
  {
    var ivs := FamilyIntervals(es, n);
    SortSorts(ivs);
    var t := LossyOrder(SortByStart(ivs));
    sort := SortingFor(ivs, t);
  }

  const HALF: seq<Byte> := [128, 0, 0, 0]
  const HOST: seq<Byte> := [200, 0, 0, 1]
  const LOST: seq<Byte> := [250, 0, 0, 1]

  /** The two elements 128.0.0.0/1 and 200.0.0.1: 250.0.0.1 belongs to the first, yet the
      compiled set does not have it. */
  lemma AddressSetLoses(sort: Sorting)
    requires IsSorting(sort)
    ensures var es := [Net(HALF, 1), Net(HOST, 32)];
      SomeElementHas(es, LOST) && !SetHas(AddressSet(es, 4, sort), LOST)
  {
    var es := [Net(HALF, 1), Net(HOST, 32)];
    var a, b := Interval(0x8000_0000, Top), Interval(0xC800_0001, At(0xC800_0002));
    HalfSpace();
    HalfIntervals();
    var s := SortedFamily(es, 4, sort);
    TwoInOrder(a, b, s);
    assert es[0].Net? && InPrefix(es[0].bytes, es[0].ones, LOST);
    AddressSetExact(es, LOST, sort);
    OverwrittenEnd(a, b, Val(LOST));
  }

  lemma OverwrittenEnd(a: Interval, b: Interval, x: nat)
    requires a.end.Top? && b.end.At? && b.start <= x && b.end.v <= x
    ensures !Kept([a, b], x)
  {
    var s := [a, b];
    assert s[1 - 1].end.Top? && s[1].start <= x;
    assert !CoversFrom(s, 1, x);
  }

  lemma HalfIntervals()
    ensures FamilyIntervals([Net(HALF, 1), Net(HOST, 32)], 4)
         == [Interval(0x8000_0000, Top), Interval(0xC800_0001, At(0xC800_0002))]
  {
    var es := [Net(HALF, 1), Net(HOST, 32)];
    HalfSpace();
    Pow31();
    assert BlockEnd(HOST, 32) == At(0xC800_0002);
    assert IsAddress(es[0]) && IsAddress(es[1]);
    assert es[1..] == [es[1]] && [es[1]][1..] == [];
    assert FamilyIntervals([], 4) == [];
    assert FamilyIntervals([es[1]], 4) == [Interval(0xC800_0001, At(0xC800_0002))];
  }

  lemma FourBytes(b: seq<Byte>)
    requires |b| == 4
    ensures Val(b) == b[0] as int * 0x100_0000 + b[1] as int * 0x1_0000 + b[2] as int * 0x100 + b[3]
  {
    assert b[..3][..2] == b[..2] && b[..2][..1] == b[..1] && b[..1][..0] == [];
    assert Val(b[..1]) == b[0];
    assert Val(b[..2]) == Val(b[..1]) * 256 + b[1];
    assert Val(b[..3]) == Val(b[..2]) * 256 + b[2];
  }

  lemma Pow31()
    ensures Pow2(31) == 0x8000_0000 && Pow2(32) == 0x1_0000_0000
  {
    assert Pow2(8) == 256;
    Pow2Add(8, 8);
    Pow2Add(16, 8);
    Pow2Add(24, 7);
    assert Pow2(7) == 128;
  }

  lemma HalfSpace()
    ensures Val(HALF) == 0x8000_0000 && Val(HOST) == 0xC800_0001 && Val(LOST) == 0xFA00_0001
    ensures Canonical(HALF, 1) && BlockEnd(HALF, 1) == Top && InPrefix(HALF, 1, LOST)
  {
    FourBytes(HALF);
    FourBytes(HOST);
    FourBytes(LOST);
    Pow31();
    Multiple(1, 31, 31);
    SameBlock(Val(LOST), Val(HALF), 31);
  }
}
