/** CIDR prefixes (RFC 4632 section 3.1, RFC 4291 section 2.3) in the two encodings
    the compiler emits: a mask-and-compare match and a [start, end) set interval. */
module Cidr {
  import opened Bits
  import opened Bytes

  // ---- bytewise register operations ----------------------------------------

  function And8(x: nat, y: nat): (r: nat)
    ensures r <= x && r <= y
  {
    if x == 0 || y == 0 then 0
    else (if x % 2 == 1 && y % 2 == 1 then 1 else 0) + 2 * And8(x / 2, y / 2)
  }

  function AndBytes(a: seq<Byte>, m: seq<Byte>): (r: seq<Byte>)
    requires |a| == |m|
    ensures |r| == |a|
  {
    seq(|a|, i requires 0 <= i < |a| => And8(a[i], m[i]))
  }

  function Xor8(x: nat, y: nat): (r: nat)
    decreases x + y
  {
    if x == 0 then y else if y == 0 then x
    else (if x % 2 == y % 2 then 0 else 1) + 2 * Xor8(x / 2, y / 2)
  }

  lemma {:induction false} Xor8Bound(x: nat, y: nat, w: nat)
    requires x < Pow2(w) && y < Pow2(w)
    ensures Xor8(x, y) < Pow2(w)
  {
    if x != 0 && y != 0 {
      Xor8Bound(x / 2, y / 2, w - 1);
    }
  }

  function XorBytes(a: seq<Byte>, x: seq<Byte>): (r: seq<Byte>)
    requires |a| == |x|
    ensures |r| == |a|
    ensures x == Zeros(|x|) ==> r == a
  {
    seq(|a|, i requires 0 <= i < |a| => XorByte(a[i], x[i]))
  }

  function XorByte(x: Byte, y: Byte): (r: Byte)
    ensures y == 0 ==> r == x
  {
    assert Pow2(8) == 256;
    Xor8Bound(x, y, 8);
    Xor8(x, y)
  }

  /** The mask byte at position i of a prefix of `ones` bits. */
  function MaskByte(i: nat, ones: nat): Byte {
    if 8 * i + 8 <= ones then 255
    else if 8 * i >= ones then 0
    else Pow2Byte(8 - ones % 8); 256 - Pow2(8 - ones % 8)
  }

  function Mask(n: nat, ones: nat): (m: seq<Byte>)
    ensures |m| == n
  {
    seq(n, i requires 0 <= i < n => MaskByte(i, ones))
  }

  lemma {:induction false} AndHighOnes(x: nat, w: nat, j: nat)
    requires j <= w && x < Pow2(w)
    ensures Pow2(j) <= Pow2(w) && And8(x, Pow2(w) - Pow2(j)) == x - Low(x, j)
  {
    Pow2Mono(j, w);
    if w != 0 {
      var j' := if j == 0 then 0 else j - 1;
      AndHighOnes(x / 2, w - 1, j');
      var m := Pow2(w) - Pow2(j);
      assert m / 2 == Pow2(w - 1) - Pow2(j') && m % 2 == if j == 0 then 1 else 0;
    }
  }

  /** Masking one byte clears its host bits: none, all, or the low ones % 8 .. 8. */
  lemma AndMaskByte(x: Byte, i: nat, ones: nat)
    ensures 8 * i + 8 <= ones ==> And8(x, MaskByte(i, ones)) == x
    ensures 8 * i >= ones ==> And8(x, MaskByte(i, ones)) == 0
    ensures 8 * i < ones < 8 * i + 8 ==> And8(x, MaskByte(i, ones)) == x - Low(x, 8 * i + 8 - ones)
  {
    assert Pow2(8) == 256;
    if 8 * i + 8 <= ones {
      AndHighOnes(x, 8, 0);
    } else if 8 * i < ones {
      assert 8 - ones % 8 == 8 * i + 8 - ones;
      AndHighOnes(x, 8, 8 - ones % 8);
    }
  }

  // ---- masking clears the host bits ------------------------------------------

  lemma {:induction false} MaskedVal(a: seq<Byte>, ones: nat)
    requires ones <= 8 * |a|
    ensures Val(AndBytes(a, Mask(|a|, ones))) == Val(a) - Low(Val(a), 8 * |a| - ones)
  {
    if |a| == 0 {
      assert Val(a) == 0;
    } else if ones <= 8 * (|a| - 1) {
      MaskedVal(a[..|a| - 1], ones);
      MaskEndsZero(a, ones);
      FloorEight(Val(a[..|a| - 1]), a[|a| - 1], 8 * (|a| - 1) - ones, 8 * |a| - ones);
    } else {
      MaskEndsPartial(a, ones);
      LowEight(Val(a[..|a| - 1]), a[|a| - 1], 8 * |a| - ones);
    }
  }

  lemma FloorEight(hi: nat, last: Byte, k: nat, k8: nat)
    requires k8 == k + 8
    ensures hi * 256 + last - Low(hi * 256 + last, k8) == (hi - Low(hi, k)) * 256
  {
    ShrEight(hi, last, k);
  }

  lemma MaskEndsZero(a: seq<Byte>, ones: nat)
    requires a != [] && ones <= 8 * (|a| - 1)
    ensures var p := a[..|a| - 1];
      Val(AndBytes(a, Mask(|a|, ones))) == Val(AndBytes(p, Mask(|p|, ones))) * 256
  {
    var p := a[..|a| - 1];
    var r := AndBytes(a, Mask(|a|, ones));
    assert r[..|a| - 1] == AndBytes(p, Mask(|p|, ones));
  }

  lemma MaskEndsPartial(a: seq<Byte>, ones: nat)
    requires a != [] && 8 * (|a| - 1) < ones <= 8 * |a|
    ensures var last := a[|a| - 1];
      Val(AndBytes(a, Mask(|a|, ones))) == Val(a[..|a| - 1]) * 256 + (last - Low(last, 8 * |a| - ones))
  {
    var n, last := |a|, a[|a| - 1];
    var r := AndBytes(a, Mask(n, ones));
    forall i | 0 <= i < n - 1 ensures r[i] == a[i] {
      AndMaskByte(a[i], i, ones);
    }
    assert r[..n - 1] == a[..n - 1];
    AndMaskByte(last, n - 1, ones);
  }

  // ---- prefixes --------------------------------------------------------------

  /** Membership of an address in net/ones: same family and the same leading bits. */
  predicate InPrefix(net: seq<Byte>, ones: nat, a: seq<Byte>)
    requires ones <= 8 * |net|
  {
    |a| == |net| && Shr(Val(a), 8 * |net| - ones) == Shr(Val(net), 8 * |net| - ones)
  }

  /** Canonical prefixes carry no host bits. */
  predicate Canonical(net: seq<Byte>, ones: nat)
    requires ones <= 8 * |net|
  {
    Low(Val(net), 8 * |net| - ones) == 0
  }

  /** The emitted mask-and-compare accepts exactly the addresses of the prefix. */
  lemma MaskCompareExact(net: seq<Byte>, ones: nat, a: seq<Byte>)
    requires ones <= 8 * |net| && Canonical(net, ones) && |a| == |net|
    ensures AndBytes(a, Mask(|a|, ones)) == net <==> InPrefix(net, ones, a)
  {
    MaskedVal(a, ones);
    ValInjective(AndBytes(a, Mask(|a|, ones)), net);
    FloorIsBase(Val(a), Val(net), 8 * |a| - ones);
  }

  // ---- the end-exclusive bound ----------------------------------------------

  datatype Bound = At(v: nat) | Top

  predicate Below(x: nat, end: Bound) {
    end.Top? || x < end.v
  }

  /** What the bound of net/ones must be: the first address after the block,
      or unbounded when the block ends at the family maximum. */
  function BlockEnd(net: seq<Byte>, ones: nat): Bound
    requires ones <= 8 * |net|
  {
    var k := 8 * |net| - ones;
    var e := Val(net) - Low(Val(net), k) + Pow2(k);
    if e == Pow2(8 * |net|) then Top else At(e)
  }

  /** b is net with the bits from `ones` up to `i` raised. */
  ghost predicate Raised(b: seq<Byte>, net: seq<Byte>, ones: nat, i: nat)
    requires ones <= i <= 8 * |net|
  {
    var k, l := 8 * |net| - ones, 8 * |net| - i;
    && |b| == |net|
    && (forall j :: i <= j < 8 * |net| ==> BitSet(b, j) == BitSet(net, j))
    && Val(b) == Val(net) - Low(Val(net), k) + (Pow2(k) - Pow2(l)) + Low(Val(net), l)
  }

  /** Raises the host bits one by one, then steps to the next address. */
  method IntervalEnd(net: seq<Byte>, ones: nat) returns (end: Bound)
    requires ones <= 8 * |net|
    ensures end == BlockEnd(net, ones)
  {
    var n := |net|;
    var b := new Byte[n](i requires 0 <= i < n => net[i]);
    assert b[..] == net;
    for i := ones to 8 * n
      invariant b.Length == n
      invariant Raised(b[..], net, ones, i)
    {
      ghost var before := b[..];
      RaisedStep(before, net, ones, i);
      if !Bit(b[i / 8], 7 - i % 8) {
        b[i / 8] := b[i / 8] + Pow2(7 - i % 8);
        assert b[..] == RaiseBit(before, i);
      }
    }
    BlockFits(Val(net), 8 * n - ones, 8 * n) by { ValBound(net); }
    var next := Val(b[..]) + 1;
    end := if next == Pow2(8 * n) then Top else At(next);
  }

  /** Raises bit i if it is clear. */
  function RaiseBit(b: seq<Byte>, i: nat): (r: seq<Byte>)
    requires i < 8 * |b|
    ensures |r| == |b|
  {
    if BitSet(b, i) then b
    else ClearBitRoom(b[i / 8], 7 - i % 8); b[i / 8 := b[i / 8] + Pow2(7 - i % 8)]
  }

  lemma RaiseBitVal(b: seq<Byte>, i: nat)
    requires i < 8 * |b|
    ensures Val(RaiseBit(b, i)) == Val(b) + if BitSet(b, i) then 0 else Pow2(8 * |b| - 1 - i)
    ensures forall k :: i < k < 8 * |b| ==> BitSet(RaiseBit(b, i), k) == BitSet(b, k)
  {
    if !BitSet(b, i) {
      ClearBitRoom(b[i / 8], 7 - i % 8);
      AddByteBit(b, i / 8, 7 - i % 8);
      assert 8 * (|b| - 1 - i / 8) + (7 - i % 8) == 8 * |b| - 1 - i;
      BitOfVal(b, i);
      AddBit(Val(b), 8 * |b| - 1 - i);
      forall k | i < k < 8 * |b| ensures BitSet(RaiseBit(b, i), k) == BitSet(b, k) {
        BitOfVal(b, k);
        BitOfVal(RaiseBit(b, i), k);
      }
    }
  }

  lemma RaisedStep(b: seq<Byte>, net: seq<Byte>, ones: nat, i: nat)
    requires ones <= i < 8 * |net| && Raised(b, net, ones, i)
    ensures !Bit(b[i / 8], 7 - i % 8) ==> b[i / 8] + Pow2(7 - i % 8) < 256
    ensures Raised(RaiseBit(b, i), net, ones, i + 1)
  {
    assert BitSet(b, i) == BitSet(net, i);
    BitOfVal(net, i);
    LowSplit(Val(net), 8 * |net| - 1 - i);
    RaiseBitVal(b, i);
    if !BitSet(b, i) {
      ClearBitRoom(b[i / 8], 7 - i % 8);
    }
  }

  /** The interval encoding denotes the same set as the mask-and-compare encoding. */
  lemma IntervalExact(net: seq<Byte>, ones: nat, a: seq<Byte>)
    requires ones <= 8 * |net| && Canonical(net, ones) && |a| == |net|
    ensures InPrefix(net, ones, a) <==> Val(net) <= Val(a) && Below(Val(a), BlockEnd(net, ones))
    ensures AndBytes(a, Mask(|a|, ones)) == net
       <==> Val(net) <= Val(a) && Below(Val(a), BlockEnd(net, ones))
  {
    SameBlock(Val(a), Val(net), 8 * |net| - ones);
    ValBound(a);
    MaskCompareExact(net, ones, a);
  }

  // ---- building the mask -------------------------------------------------------

  method CidrMaskBytes(ones: nat, n: nat) returns (mask: array<Byte>)
    ensures fresh(mask) && mask[..] == Mask(n, ones)
  {
    mask := new Byte[n];
    for i := 0 to n
      invariant mask[..i] == Mask(n, ones)[..i]
    {
      if 8 * i + 8 <= ones {
        mask[i] := 255;
      } else if 8 * i >= ones {
        mask[i] := 0;
      } else {
        Pow2Byte(8 - ones % 8);
        mask[i] := 256 - Pow2(8 - ones % 8);
      }
    }
    assert mask[..] == mask[..n];
  }
}
