/** How interval set elements are printed, and what the printed text denotes. */
module Render {
  import opened Bits
  import opened Bytes
  import opened Cidr
  import opened Nft
  import opened Compile

  // ---- bytes from the front ----------------------------------------------------------

  lemma {:induction false} ValCons(x: Byte, t: seq<Byte>)
    ensures Val([x] + t) == x * Pow2(8 * |t|) + Val(t)
  {
    if t == [] {
      assert [x] + t == [x] && [x][..0] == [];
      assert Val([x]) == Val([]) * 256 + x;
    } else {
      var p := t[..|t| - 1];
      ValCons(x, p);
      assert ([x] + t)[..|t|] == [x] + p;
      Pow2Eight(8 * |p|);
      Distribute(x, Pow2(8 * |p|));
    }
  }

  lemma Distribute(x: int, p: int)
    ensures x * p * 256 == x * (256 * p)
  {
  }

  lemma ValSuffix(b: seq<Byte>, i: nat)
    requires i < |b|
    ensures Val(b[i..]) == b[i] * Pow2(8 * (|b| - i - 1)) + Val(b[i + 1..])
  {
    assert b[i..] == [b[i]] + b[i + 1..];
    ValCons(b[i], b[i + 1..]);
  }

  lemma SubStep(e: int, s: int, bw: int, bw2: int, p: int)
    ensures (e - s - bw + 256 * bw2) * p + bw * p == e * p - s * p + bw2 * (256 * p)
  {
  }

  // ---- one bit ------------------------------------------------------------------------

  lemma {:induction false} Pow2Bits(e: nat, k: nat)
    ensures Bit(Pow2(e), k) <==> k == e
  {
    if e == 0 {
      if k > 0 {
        ShrZero(k - 1);
      }
    } else if k > 0 {
      Pow2Bits(e - 1, k - 1);
    }
  }

  lemma {:induction false} ShrZero(k: nat)
    ensures Shr(0, k) == 0
  {
    if k > 0 {
      ShrZero(k - 1);
    }
  }

  /** The bits below w determine a number below 2^w. */
  lemma {:induction false} SameBits(v: nat, u: nat, w: nat)
    requires v < Pow2(w) && u < Pow2(w)
    requires forall k :: 0 <= k < w ==> Bit(v, k) == Bit(u, k)
    ensures v == u
  {
    if w > 0 {
      assert Bit(v, 0) == Bit(u, 0);
      forall k | 0 <= k < w - 1 ensures Bit(v / 2, k) == Bit(u / 2, k) {
        assert Bit(v, k + 1) == Bit(u, k + 1);
      }
      SameBits(v / 2, u / 2, w - 1);
    }
  }

  /** Position j holds the only set bit. */
  ghost predicate OneBit(b: seq<Byte>, j: nat) {
    j < 8 * |b| && forall k :: 0 <= k < 8 * |b| ==> (BitSet(b, k) <==> k == j)
  }

  lemma OneBitVal(b: seq<Byte>, j: nat)
    requires j < 8 * |b|
    ensures OneBit(b, j) <==> Val(b) == Pow2(8 * |b| - 1 - j)
  {
    var w := 8 * |b|;
    forall k | 0 <= k < w ensures BitSet(b, k) == Bit(Val(b), w - 1 - k) {
      BitOfVal(b, k);
    }
    if OneBit(b, j) {
      OneBitPower(b, j);
    }
    if Val(b) == Pow2(w - 1 - j) {
      forall k | 0 <= k < w ensures BitSet(b, k) <==> k == j {
        Pow2Bits(w - 1 - j, w - 1 - k);
      }
    }
  }

  lemma OneBitPower(b: seq<Byte>, j: nat)
    requires OneBit(b, j)
    ensures Val(b) == Pow2(8 * |b| - 1 - j)
  {
    var w := 8 * |b|;
    ValBound(b);
    Pow2Mono(w - j, w);
    forall k | 0 <= k < w ensures Bit(Val(b), k) == Bit(Pow2(w - 1 - j), k) {
      BitOfVal(b, w - 1 - k);
      Pow2Bits(w - 1 - j, k);
    }
    SameBits(Val(b), Pow2(w - 1 - j), w);
  }

  lemma OneBitUnique(b: seq<Byte>, i: nat, j: nat)
    requires OneBit(b, i) && OneBit(b, j)
    ensures i == j
  {
    assert BitSet(b, i);
  }

  lemma TwoBitsSet(b: seq<Byte>, i: nat, k: nat)
    requires i < k < 8 * |b| && BitSet(b, i) && BitSet(b, k)
    ensures forall j :: !OneBit(b, j)
  {
  }

  lemma NoBitSet(b: seq<Byte>)
    requires forall k :: 0 <= k < 8 * |b| ==> !BitSet(b, k)
    ensures forall j :: !OneBit(b, j)
  {
    forall j: nat ensures !OneBit(b, j) {
      if j < 8 * |b| {
        assert !BitSet(b, j);
      }
    }
  }

  // ---- prefixLen ----------------------------------------------------------------------

  /** endEx - start modulo 2^(8n), computed byte by byte with a borrow. */
  method Subtract(start: seq<Byte>, endEx: seq<Byte>) returns (span: array<Byte>, wrapped: bool)
    requires |start| == |endEx|
    ensures fresh(span) && span.Length == |start|
    ensures Val(span[..]) == Val(endEx) - Val(start) + if wrapped then Pow2(8 * |start|) else 0
  {
    var n := |start|;
    span := new Byte[n];
    var borrow: nat := 0;
    assert start[n..] == endEx[n..] == span[..][n..] == [];
    for i := n downto 0
      invariant borrow <= 1 && span.Length == n
      invariant Subtracted(start, endEx, span[..], i, borrow)
    {
      ghost var was := span[..];
      var d := endEx[i] - start[i] - borrow;
      var next := if d < 0 then 1 else 0;
      span[i] := d + 256 * next;
      assert span[..] == was[i := span[i]];
      SubtractedByte(start, endEx, was, i, borrow, next, span[i]);
      borrow := next;
    }
    wrapped := borrow == 1;
    assert span[..][0..] == span[..] && endEx[0..] == endEx && start[0..] == start;
  }

  ghost predicate Subtracted(start: seq<Byte>, endEx: seq<Byte>, span: seq<Byte>, i: nat, borrow: nat)
    requires i <= |start| == |endEx| == |span|
  {
    Val(span[i..]) == Val(endEx[i..]) - Val(start[i..]) + borrow * Pow2(8 * (|start| - i))
  }

  lemma SubtractedByte(start: seq<Byte>, endEx: seq<Byte>, was: seq<Byte>, i: nat, borrow: nat, next: nat, d: Byte)
    requires i < |start| == |endEx| == |was| && Subtracted(start, endEx, was, i + 1, borrow)
    requires d == endEx[i] - start[i] - borrow + 256 * next
    ensures Subtracted(start, endEx, was[i := d], i, next)
  {
    var p := Pow2(8 * (|start| - i - 1));
    SubStep(endEx[i], start[i], borrow, next, p);
    assert was[i := d][i + 1..] == was[i + 1..];
    ValSuffix(was[i := d], i);
    ValSuffix(endEx, i);
    ValSuffix(start, i);
    Pow2Eight(8 * (|start| - i - 1));
  }

  /** Looks for exactly one set bit; bits is its position plus one. */
  method SingleBit(span: seq<Byte>) returns (ok: bool, bits: nat)
    ensures ok ==> 1 <= bits <= 8 * |span| && OneBit(span, bits - 1)
    ensures !ok ==> forall j :: !OneBit(span, j)
  {
    var seen := false;
    bits := 0;
    for k := 0 to 8 * |span|
      invariant seen ==> 1 <= bits <= k && BitSet(span, bits - 1)
      invariant forall j :: 0 <= j < k && BitSet(span, j) ==> seen && j == bits - 1
    {
      if Bit(span[k / 8], 7 - k % 8) {
        assert BitSet(span, k);
        if seen {
          TwoBitsSet(span, bits - 1, k);
          return false, 0;
        }
        seen, bits := true, k + 1;
      }
    }
    ok := seen;
    if !ok {
      NoBitSet(span);
    }
  }

  /** start &^ mask is zero in every byte. */
  method Aligned(start: seq<Byte>, bits: nat) returns (ok: bool)
    requires bits <= 8 * |start|
    ensures ok <==> Canonical(start, bits)
  {
    var n := |start|;
    MaskedVal(start, bits);
    ValInjective(AndBytes(start, Mask(n, bits)), start);
    for i := 0 to n
      invariant forall j :: 0 <= j < i ==> And8(start[j], Mask(n, bits)[j]) == start[j]
    {
      if start[i] - And8(start[i], Mask(n, bits)[i]) != 0 {
        assert AndBytes(start, Mask(n, bits))[i] != start[i];
        return false;
      }
    }
    assert AndBytes(start, Mask(n, bits)) == start;
    ok := true;
  }

  /** [start, endEx) is exactly the block start/ones; the top of the space is all zeros. */
  predicate IsBlock(start: seq<Byte>, endEx: seq<Byte>, ones: nat) {
    && 1 <= ones <= 8 * |start| && |endEx| == |start|
    && Canonical(start, ones) && endEx == BoundKey(BlockEnd(start, ones), |start|)
  }

  /** Under alignment, the span is a power of two exactly when the end closes the block. */
  lemma SpanIsBlock(start: seq<Byte>, endEx: seq<Byte>, ones: nat, span: seq<Byte>, wrapped: bool)
    requires 1 <= ones <= 8 * |start| && |endEx| == |start| == |span| && Canonical(start, ones)
    requires Val(span) == Val(endEx) - Val(start) + if wrapped then Pow2(8 * |start|) else 0
    ensures OneBit(span, ones - 1) <==> IsBlock(start, endEx, ones)
  {
    OneBitVal(span, ones - 1);
    ValBound(span);
    EndKey(start, endEx, ones, Val(span), wrapped);
  }

  lemma EndKey(start: seq<Byte>, endEx: seq<Byte>, ones: nat, span: nat, wrapped: bool)
    requires 1 <= ones <= 8 * |start| && |endEx| == |start| && Canonical(start, ones)
    requires span < Pow2(8 * |start|)
    requires span == Val(endEx) - Val(start) + if wrapped then Pow2(8 * |start|) else 0
    ensures span == Pow2(8 * |start| - ones) <==> endEx == BoundKey(BlockEnd(start, ones), |start|)
  {
    ValBound(endEx);
    EndAfter(start, ones, Val(endEx), span, wrapped);
    BoundKeyVal(start, ones);
    ValInjective(endEx, BoundKey(BlockEnd(start, ones), |start|));
  }

  lemma BoundKeyVal(start: seq<Byte>, ones: nat)
    requires ones <= 8 * |start| && Canonical(start, ones)
    ensures var e := BlockEnd(start, ones); Val(BoundKey(e, |start|)) == if e.At? then e.v else 0
    ensures BlockEnd(start, ones).At? ==> 0 < BlockEnd(start, ones).v < Pow2(8 * |start|)
  {
    var n, k := |start|, 8 * |start| - ones;
    ValBound(start);
    BlockFits(Val(start), k, 8 * n);
    var e := BlockEnd(start, ones);
    ValZeros(n);
    if e.At? {
      ValEncode(e.v, n);
    }
  }

  lemma EndAfter(start: seq<Byte>, ones: nat, end: nat, span: nat, wrapped: bool)
    requires 1 <= ones <= 8 * |start| && Canonical(start, ones)
    requires end < Pow2(8 * |start|) && span < Pow2(8 * |start|)
    requires span == end - Val(start) + if wrapped then Pow2(8 * |start|) else 0
    ensures var e := BlockEnd(start, ones);
      span == Pow2(8 * |start| - ones) <==> end == if e.At? then e.v else 0
  {
    var n, k := |start|, 8 * |start| - ones;
    ValBound(start);
    BlockFits(Val(start), k, 8 * n);
    Pow2Mono(k + 1, 8 * n);
  }

  method PrefixLen(start: seq<Byte>, endEx: seq<Byte>) returns (ok: bool, ones: nat)
    ensures ok ==> IsBlock(start, endEx, ones)
    ensures !ok ==> forall k :: !IsBlock(start, endEx, k)
  {
    if |endEx| != |start| {
      return false, 0;
    }
    var span, wrapped := Subtract(start, endEx);
    ghost var bytes := span[..];
    forall k: nat | 1 <= k <= 8 * |start| && Canonical(start, k)
      ensures OneBit(bytes, k - 1) <==> IsBlock(start, endEx, k)
    {
      SpanIsBlock(start, endEx, k, bytes, wrapped);
    }
    ok, ones := SingleBit(span[..]);
    if ok {
      ok := Aligned(start, ones);
      forall k: nat | IsBlock(start, endEx, k) ensures k == ones {
        OneBitUnique(bytes, ones - 1, k - 1);
      }
    }
  }

  // ---- the address before -----------------------------------------------------------

  function Before(v: nat, n: nat): nat {
    if v == 0 then Pow2(8 * n) - 1 else v - 1
  }

  lemma {:induction false} ValOnes(n: nat)
    ensures Val(seq(n, i => 255 as Byte)) == Pow2(8 * n) - 1
  {
    if n > 0 {
      ValOnes(n - 1);
      assert seq(n, i => 255 as Byte)[..n - 1] == seq(n - 1, i => 255 as Byte);
      Pow2Eight(8 * (n - 1));
    }
  }

  /** Byte i is one less, the bytes before it are equal, the zeros after it became 255. */
  ghost predicate Borrowed(ip: seq<Byte>, out: seq<Byte>, i: nat) {
    && |out| == |ip| && i <= |ip|
    && (forall j :: 0 <= j < i ==> out[j] == ip[j])
    && (forall j :: i <= j < |ip| ==> ip[j] == 0 && out[j] == 255)
  }

  /** Decrements from the last byte, borrowing through zeros; zero wraps to the maximum. */
  method DecIp(ip: seq<Byte>) returns (out: array<Byte>)
    ensures fresh(out) && out.Length == |ip|
    ensures Val(out[..]) == Before(Val(ip), |ip|)
  {
    var n := |ip|;
    out := new Byte[n](i requires 0 <= i < n => ip[i]);
    var i := n;
    while i > 0
      invariant i <= n && Borrowed(ip, out[..], i)
    {
      if out[i - 1] > 0 {
        ghost var was := out[..];
        out[i - 1] := out[i - 1] - 1;
        Decremented(ip, was, out[..], i - 1);
        return;
      }
      out[i - 1] := 255;
      i := i - 1;
    }
    BorrowedVal(ip, out[..], 0);
    assert ip[0..] == ip && out[..][0..] == out[..];
  }

  lemma BorrowedVal(ip: seq<Byte>, out: seq<Byte>, i: nat)
    requires Borrowed(ip, out, i)
    ensures Val(ip[i..]) == 0 && Val(out[i..]) == Pow2(8 * (|ip| - i)) - 1
  {
    ValZeros(|ip| - i);
    assert ip[i..] == Zeros(|ip| - i);
    ValOnes(|ip| - i);
    assert out[i..] == seq(|ip| - i, k => 255 as Byte);
  }

  lemma {:induction false} Decremented(ip: seq<Byte>, was: seq<Byte>, out: seq<Byte>, i: nat)
    requires i < |ip| && Borrowed(ip, was, i + 1) && ip[i] > 0 && out == was[i := ip[i] - 1]
    ensures Val(ip) > 0 && Val(out) == Val(ip) - 1
  {
    BorrowedVal(ip, was, i + 1);
    assert out[i + 1..] == was[i + 1..];
    ValSuffix(ip, i);
    ValSuffix(out, i);
    OneLess(ip[i], Pow2(8 * (|ip| - i - 1)));
    SharedFront(ip, out, i);
    ZeroIffZeros(ip);
  }

  lemma OneLess(x: int, p: int)
    ensures (x - 1) * p + (p - 1) == x * p - 1
  {
  }

  lemma {:induction false} SharedFront(a: seq<Byte>, b: seq<Byte>, i: nat)
    requires |a| == |b| && i <= |a| && forall j :: 0 <= j < i ==> a[j] == b[j]
    ensures Val(a) - Val(a[i..]) == Val(b) - Val(b[i..])
  {
    if i == 0 {
      assert a[0..] == a && b[0..] == b;
    } else {
      SharedFront(a, b, i - 1);
      ValSuffix(a, i - 1);
      ValSuffix(b, i - 1);
    }
  }

  // ---- printed elements ----------------------------------------------------------------

  /** An address as spelled: dotted decimal or IPv6 text. */
  datatype Text = V4Text(v: nat) | V6Text(v: nat) {
    function Width(): nat {
      if V4Text? then 4 else 16
    }
  }

  datatype Shown = Prefix(net: Text, ones: nat) | Span(first: Text, last: Text)

  const MAPPED: seq<Byte> := [0, 0, 0, 0, 0, 0, 0, 0, 0, 0, 255, 255]

  predicate Mapped(data: seq<Byte>) {
    |data| == 16 && data[..12] == MAPPED
  }

  /** IPv4-mapped addresses are spelled in dotted decimal. */
  function Spell(data: seq<Byte>): Text
    requires |data| == 4 || |data| == 16
  {
    if |data| == 4 then V4Text(Val(data))
    else if Mapped(data) then V4Text(Val(data[12..]))
    else V6Text(Val(data))
  }

  /** The addresses that a reader of the text gets. */
  predicate Denotes(t: Shown, key: seq<Byte>) {
    match t
    case Prefix(net, ones) =>
      |key| == net.Width() && ones <= 8 * |key| && Shr(Val(key), 8 * |key| - ones) == Shr(net.v, 8 * |key| - ones)
    case Span(first, last) =>
      |key| == first.Width() == last.Width() && first.v <= Val(key) <= last.v
  }

  /** The interval that the pair of elements holds in the set. */
  predicate Holds(start: seq<Byte>, endEx: seq<Byte>, key: seq<Byte>) {
    PairHas(Elem(start, false), Elem(endEx, true), key)
  }

  /** Some spelled endpoint of an IPv6 element is an IPv4-mapped address. */
  ghost predicate Misspelt(start: seq<Byte>, endEx: seq<Byte>) {
    Mapped(start)
    || ((forall k :: !IsBlock(start, endEx, k)) && Mapped(Encode(Before(Val(endEx), |endEx|), |endEx|)))
  }

  lemma BlockHolds(start: seq<Byte>, endEx: seq<Byte>, ones: nat, key: seq<Byte>)
    requires IsBlock(start, endEx, ones) && |key| == |start|
    ensures Holds(start, endEx, key) <==> InPrefix(start, ones, key)
  {
    IntervalExact(start, ones, key);
    BoundKeyVal(start, ones);
  }

  lemma RangeHolds(start: seq<Byte>, endEx: seq<Byte>, last: seq<Byte>, key: seq<Byte>)
    requires |start| == |endEx| == |last| == |key| && Val(last) == Before(Val(endEx), |endEx|)
    ensures Holds(start, endEx, key) <==> Val(start) <= Val(key) <= Val(last)
  {
    ValBound(key);
    if Val(endEx) == 0 {
      assert Val(last) == Pow2(8 * |key|) - 1;
    }
  }

  /** Prints [start, endEx) as a prefix when it is one block, else as a first-last range.
      The text denotes exactly the interval unless it spells a mapped IPv6 address; then
      it denotes no address of the set at all. */
  method WriteRangeElem(start: seq<Byte>, endEx: seq<Byte>) returns (t: Shown)
    requires |start| == |endEx| && (|start| == 4 || |start| == 16)
    ensures !Misspelt(start, endEx) ==> forall key :: Denotes(t, key) <==> Holds(start, endEx, key)
    ensures Misspelt(start, endEx) ==> forall key :: |key| == |start| ==> !Denotes(t, key)
    ensures t.Prefix? ==> IsBlock(start, endEx, t.ones)
    ensures t.Span? ==> forall k :: !IsBlock(start, endEx, k)
  {
    var ok, ones := PrefixLen(start, endEx);
    if ok {
      t := Prefix(Spell(start), ones);
      PrefixText(start, endEx, ones);
    } else {
      var end := DecIp(endEx);
      var last := end[..];
      t := Span(Spell(start), Spell(last));
      SpanText(start, endEx, last);
    }
  }

  lemma PrefixText(start: seq<Byte>, endEx: seq<Byte>, ones: nat)
    requires IsBlock(start, endEx, ones) && (|start| == 4 || |start| == 16)
    ensures var t := Prefix(Spell(start), ones);
      && (!Mapped(start) ==> forall key :: Denotes(t, key) <==> Holds(start, endEx, key))
      && (Mapped(start) ==> forall key :: |key| == |start| ==> !Denotes(t, key))
  {
    forall key: seq<Byte> | |key| == |start| ensures Holds(start, endEx, key) <==> InPrefix(start, ones, key) {
      BlockHolds(start, endEx, ones, key);
    }
  }

  lemma SpanText(start: seq<Byte>, endEx: seq<Byte>, last: seq<Byte>)
    requires |start| == |endEx| == |last| && (|start| == 4 || |start| == 16)
    requires Val(last) == Before(Val(endEx), |endEx|) && forall k :: !IsBlock(start, endEx, k)
    ensures var t := Span(Spell(start), Spell(last));
      && (!Misspelt(start, endEx) ==> forall key :: Denotes(t, key) <==> Holds(start, endEx, key))
      && (Misspelt(start, endEx) ==> forall key :: |key| == |start| ==> !Denotes(t, key))
  {
    EncodeVal(last);
    forall key: seq<Byte> | |key| == |start| ensures Holds(start, endEx, key) <==> Val(start) <= Val(key) <= Val(last) {
      RangeHolds(start, endEx, last, key);
    }
  }

  /** One merged interval that ends at the last IPv4-mapped address is misprinted. */
  lemma MappedEndMisspelt(start: seq<Byte>, endEx: seq<Byte>)
    requires start == Zeros(15) + [1] && endEx == Zeros(9) + [1] + Zeros(6)
    ensures Misspelt(start, endEx) && Holds(start, endEx, start)
  {
    NotBlock(start, endEx);
    LastMapped(endEx);
    assert Val(start) == 1 by {
      assert start[..15] == Zeros(15);
      ValZeros(15);
    }
    ValOfEnd(endEx);
    assert Pow2(48) > 1 by { Pow2Mono(1, 48); }
  }

  lemma ValOfEnd(endEx: seq<Byte>)
    requires endEx == Zeros(9) + [1] + Zeros(6)
    ensures Val(endEx) == Pow2(48)
  {
    assert endEx[9..] == [1] + Zeros(6);
    ValCons(1, Zeros(6));
    ValZeros(6);
    SharedFront(endEx, Zeros(16), 9);
    assert Zeros(16)[9..] == Zeros(7);
    ValZeros(16);
    ValZeros(7);
  }

  lemma NotBlock(start: seq<Byte>, endEx: seq<Byte>)
    requires start == Zeros(15) + [1] && endEx == Zeros(9) + [1] + Zeros(6)
    ensures forall k :: !IsBlock(start, endEx, k)
  {
    assert Val(start) == 1 by {
      assert start[..15] == Zeros(15);
      ValZeros(15);
    }
    forall k: nat | k < 128 ensures !Canonical(start, k) {
      OneNotCanonical(start, k);
    }
    ValOfEnd(endEx);
    Pow2Mono(3, 128);
    Pow2Mono(3, 48);
    assert Pow2(3) == 8;
    assert BlockEnd(start, 128) == At(2);
    BoundKeyVal(start, 128);
  }

  lemma OneNotCanonical(start: seq<Byte>, k: nat)
    requires |start| == 16 && Val(start) == 1 && k < 128
    ensures !Canonical(start, k)
  {
    assert Low(1, 128 - k) == 2 * Low(0, 127 - k) + 1;
  }

  lemma LastMapped(endEx: seq<Byte>)
    requires endEx == Zeros(9) + [1] + Zeros(6)
    ensures Mapped(Encode(Before(Val(endEx), 16), 16))
  {
    var last := MAPPED + [255, 255, 255, 255];
    ValOfEnd(endEx);
    ValOfLast(last);
    EncodeVal(last);
    assert last[..12] == MAPPED;
  }

  lemma EncodeVal(b: seq<Byte>)
    ensures Encode(Val(b), |b|) == b
  {
    ValBound(b);
    ValEncode(Val(b), |b|);
    ValInjective(b, Encode(Val(b), |b|));
  }

  lemma ValZeroFront(tail: seq<Byte>)
    requires |tail| == 6
    ensures Val(Zeros(10) + tail) == Val(tail)
  {
    var b := Zeros(10) + tail;
    SharedFront(b, Zeros(16), 10);
    assert b[10..] == tail && Zeros(16)[10..] == Zeros(6);
    ValZeros(16);
    ValZeros(6);
  }

  lemma ValOfLast(last: seq<Byte>)
    requires last == MAPPED + [255, 255, 255, 255]
    ensures Val(last) == Pow2(48) - 1
  {
    var ones := seq(6, i => 255 as Byte);
    assert last == Zeros(10) + ones;
    ValOnes(6);
    ValZeroFront(ones);
  }

  // ---- ports --------------------------------------------------------------------------

  /** Ports print as one number or as lo-hi; an all-zero end runs to 65535. */
  method WritePortRange(start: seq<Byte>, endEx: seq<Byte>) returns (lo: nat, hi: int, single: bool)
    requires |start| == |endEx| == 2
    ensures forall p: nat :: p < 65536 ==> (Holds(start, endEx, Port(p)) <==> lo <= p <= hi)
    ensures single <==> lo == hi
  {
    lo := BigEndian(start);
    if endEx[0] == 0 && endEx[1] == 0 {
      hi := 65535;
    } else {
      hi := BigEndian(endEx) - 1;
    }
    single := lo == hi;
    TwoBytes(start);
    TwoBytes(endEx);
    forall p: nat | p < 65536 ensures Val(Port(p)) == p {
      TwoBytes(Port(p));
    }
  }

  function BigEndian(b: seq<Byte>): nat
    requires |b| == 2
  {
    (b[0] as int) * 256 + b[1]
  }

  lemma TwoBytes(b: seq<Byte>)
    requires |b| == 2
    ensures Val(b) == BigEndian(b)
  {
    assert b[..1] == [b[0]] && [b[0]][..0] == [];
    assert Val([b[0]]) == Val([]) * 256 + b[0];
  }
}
