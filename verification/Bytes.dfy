/** Big-endian byte strings: the network-order values that nftables registers,
    set keys and address literals hold. */
module Bytes {
  import opened Bits

  type Byte = x: int | 0 <= x < 256

  /** The number a big-endian byte string denotes. */
  function Val(b: seq<Byte>): (v: nat)
  {
    if b == [] then 0 else Val(b[..|b| - 1]) * 256 + b[|b| - 1]
  }

  /** The n-byte big-endian encoding of v modulo 2^(8n). */
  function Encode(v: nat, n: nat): (b: seq<Byte>)
    ensures |b| == n
  {
    if n == 0 then [] else Encode(v / 256, n - 1) + [v % 256]
  }

  function Zeros(n: nat): (z: seq<Byte>)
    ensures |z| == n
  {
    seq(n, i => 0)
  }

  lemma {:induction false} ValBound(b: seq<Byte>)
    ensures Val(b) < Pow2(8 * |b|)
  {
    if b != [] {
      ValBound(b[..|b| - 1]);
      Pow2Eight(8 * (|b| - 1));
    }
  }

  lemma {:induction false} ValInjective(a: seq<Byte>, b: seq<Byte>)
    requires |a| == |b|
    ensures Val(a) == Val(b) <==> a == b
  {
    if a != [] {
      ValInjective(a[..|a| - 1], b[..|b| - 1]);
      assert a == a[..|a| - 1] + [a[|a| - 1]];
      assert b == b[..|b| - 1] + [b[|b| - 1]];
    }
  }

  lemma {:induction false} ValEncode(v: nat, n: nat)
    requires v < Pow2(8 * n)
    ensures Val(Encode(v, n)) == v
  {
    if n != 0 {
      Pow2Eight(8 * (n - 1));
      ValEncode(v / 256, n - 1);
    }
  }

  lemma {:induction false} ValZeros(n: nat)
    ensures Val(Zeros(n)) == 0
  {
    if n != 0 {
      assert Zeros(n)[..n - 1] == Zeros(n - 1);
      ValZeros(n - 1);
    }
  }

  lemma ZeroIffZeros(b: seq<Byte>)
    ensures Val(b) == 0 <==> b == Zeros(|b|)
  {
    ValZeros(|b|);
    ValInjective(b, Zeros(|b|));
  }

  /** Bit i of a byte string, counted from the most significant bit. */
  predicate BitSet(b: seq<Byte>, i: nat)
    requires i < 8 * |b|
  {
    Bit(b[i / 8], 7 - i % 8)
  }

  lemma {:induction false} BitOfVal(b: seq<Byte>, i: nat)
    requires i < 8 * |b|
    ensures Bit(Val(b), 8 * |b| - 1 - i) == BitSet(b, i)
  {
    var n := |b|;
    BitEight(Val(b[..n - 1]), b[n - 1], 8 * n - 1 - i);
    if i / 8 < n - 1 {
      assert b[..n - 1][i / 8] == b[i / 8];
      BitOfVal(b[..n - 1], i);
    }
  }

  lemma ClearBitRoom(x: Byte, e: nat)
    requires e < 8 && !Bit(x, e)
    ensures x + Pow2(e) < 256
  {
    assert Pow2(8) == 256;
    AddBit(x, e);
    ClearBitGrows(x, e, 8);
  }

  lemma {:induction false} ClearBitGrows(x: nat, e: nat, w: nat)
    requires e < w && x < Pow2(w) && !Bit(x, e)
    ensures x + Pow2(e) < Pow2(w)
  {
    assert Pow2(w) == 2 * Pow2(w - 1) && x / 2 < Pow2(w - 1);
    if e != 0 {
      assert Bit(x, e) == Bit(x / 2, e - 1);
      ClearBitGrows(x / 2, e - 1, w - 1);
    } else {
      assert x % 2 == 0;
    }
  }

  lemma {:induction false} AddByteBit(b: seq<Byte>, j: nat, e: nat)
    requires j < |b| && b[j] + Pow2(e) < 256
    ensures Val(b[j := b[j] + Pow2(e)]) == Val(b) + Pow2(8 * (|b| - 1 - j) + e)
  {
    var n, c := |b|, b[j := b[j] + Pow2(e)];
    if j == n - 1 {
      assert c[..n - 1] == b[..n - 1];
    } else {
      assert c[..n - 1] == b[..n - 1][j := b[j] + Pow2(e)];
      AddByteBit(b[..n - 1], j, e);
      Pow2Eight(8 * (n - 2 - j) + e);
    }
  }
}
