/** Numbers read in binary: powers of two, shifts, low parts and single bits. */
module Bits {

  function Pow2(k: nat): (r: nat)
    ensures r > 0
  {
    if k == 0 then 1 else 2 * Pow2(k - 1)
  }

  /** v without its k low bits. */
  function Shr(v: nat, k: nat): nat {
    if k == 0 then v else Shr(v / 2, k - 1)
  }

  /** The k low bits of v. */
  function Low(v: nat, k: nat): (r: nat)
    ensures r <= v
  {
    if k == 0 then 0 else 2 * Low(v / 2, k - 1) + v % 2
  }

  predicate Bit(v: nat, k: nat) {
    Shr(v, k) % 2 == 1
  }

  lemma {:induction false} LowAll(v: nat, k: nat)
    requires v < Pow2(k)
    ensures Low(v, k) == v && Shr(v, k) == 0
  {
    if k != 0 {
      LowAll(v / 2, k - 1);
    }
  }

  lemma {:induction false} LowSplit(v: nat, k: nat)
    ensures Low(v, k + 1) == Low(v, k) + if Bit(v, k) then Pow2(k) else 0
  {
    if k != 0 {
      LowSplit(v / 2, k - 1);
    }
  }

  /** Adding to a multiple of 2^k leaves the two parts side by side. */
  lemma {:induction false} AddAligned(t: nat, l: nat, k: nat)
    requires Low(t, k) == 0
    ensures Low(t + l, k) == Low(l, k) && Shr(t + l, k) == Shr(t, k) + Shr(l, k)
  {
    if k != 0 {
      assert t % 2 == 0 && (t + l) / 2 == t / 2 + l / 2;
      AddAligned(t / 2, l / 2, k - 1);
    }
  }

  lemma {:induction false} ShrShr(v: nat, a: nat, b: nat)
    ensures Shr(v, a + b) == Shr(Shr(v, a), b)
  {
    if a != 0 {
      ShrShr(v / 2, a - 1, b);
    }
  }

  lemma {:induction false} Pow2Mono(a: nat, b: nat)
    requires a <= b
    ensures Pow2(a) <= Pow2(b)
  {
    if a < b {
      Pow2Mono(a, b - 1);
    }
  }

  /** The numbers that agree with an aligned base above bit k form one block. */
  lemma {:induction false} SameBlock(v: nat, base: nat, k: nat)
    requires Low(base, k) == 0
    ensures Shr(v, k) == Shr(base, k) <==> base <= v < base + Pow2(k)
  {
    if k != 0 {
      SameBlock(v / 2, base / 2, k - 1);
    }
  }

  lemma {:induction false} FloorIsBase(v: nat, base: nat, k: nat)
    requires Low(base, k) == 0
    ensures v - Low(v, k) == base <==> Shr(v, k) == Shr(base, k)
  {
    if k != 0 {
      FloorIsBase(v / 2, base / 2, k - 1);
    }
  }

  lemma {:induction false} AddBit(v: nat, k: nat)
    requires !Bit(v, k)
    ensures Shr(v + Pow2(k), k) == Shr(v, k) + 1 && Low(v + Pow2(k), k) == Low(v, k)
    ensures forall j :: 0 <= j < k ==> Bit(v + Pow2(k), j) == Bit(v, j)
  {
    if k != 0 {
      assert (v + Pow2(k)) / 2 == v / 2 + Pow2(k - 1);
      AddBit(v / 2, k - 1);
      forall j | 0 <= j < k ensures Bit(v + Pow2(k), j) == Bit(v, j) {
        if j != 0 {
          assert Bit(v / 2 + Pow2(k - 1), j - 1) == Bit(v / 2, j - 1);
        }
      }
    }
  }

  lemma {:induction false} BlockFits(v: nat, k: nat, m: nat)
    requires k <= m && v < Pow2(m)
    ensures v - Low(v, k) + Pow2(k) <= Pow2(m)
  {
    if k != 0 {
      BlockFits(v / 2, k - 1, m - 1);
    }
  }

  // ---- one byte at a time -----------------------------------------------------

  lemma Pow2Byte(k: nat)
    requires k <= 8
    ensures 1 <= Pow2(k) <= 256
  {
    Pow2Mono(k, 8);
    assert Pow2(8) == 256;
  }

  lemma {:induction false} Pow2Add(a: nat, b: nat)
    ensures Pow2(a + b) == Pow2(a) * Pow2(b)
  {
    if a != 0 {
      Pow2Add(a - 1, b);
      assert 2 * Pow2(a - 1) * Pow2(b) == 2 * (Pow2(a - 1) * Pow2(b));
    }
  }

  lemma Pow2Eight(k: nat)
    ensures Pow2(k + 8) == 256 * Pow2(k)
  {
    Pow2Add(8, k);
    assert Pow2(8) == 256;
  }

  /** hi shifted left by w with `last` in the gap. */
  lemma {:induction false} Joined(hi: nat, last: nat, w: nat, k: nat)
    requires last < Pow2(w)
    ensures Shr(hi * Pow2(w) + last, k + w) == Shr(hi, k)
    ensures Low(hi * Pow2(w) + last, k + w) == Low(hi, k) * Pow2(w) + last
  {
    if w != 0 {
      var p := Pow2(w - 1);
      assert hi * (2 * p) == 2 * (hi * p);
      assert Low(hi, k) * (2 * p) == 2 * (Low(hi, k) * p);
      Joined(hi, last / 2, w - 1, k);
    }
  }

  lemma ShrEight(hi: nat, last: nat, k: nat)
    requires last < 256
    ensures Shr(hi * 256 + last, k + 8) == Shr(hi, k)
    ensures Low(hi * 256 + last, k + 8) == Low(hi, k) * 256 + last
  {
    assert Pow2(8) == 256;
    Joined(hi, last, 8, k);
  }

  lemma LowEight(hi: nat, last: nat, k: nat)
    requires k <= 8
    ensures Low(hi * 256, k) == 0
    ensures Low(hi * 256 + last, k) == Low(last, k)
  {
    assert Pow2(8) == 256;
    Multiple(hi, 8, k);
    AddAligned(hi * 256, last, k);
  }

  lemma {:induction false} Multiple(hi: nat, w: nat, k: nat)
    requires k <= w
    ensures Low(hi * Pow2(w), k) == 0
  {
    if k != 0 {
      assert hi * (2 * Pow2(w - 1)) == 2 * (hi * Pow2(w - 1));
      Multiple(hi, w - 1, k - 1);
    }
  }

  lemma BitEight(hi: nat, last: nat, k: nat)
    requires last < 256
    ensures k < 8 ==> Bit(hi * 256 + last, k) == Bit(last, k)
    ensures k >= 8 ==> Bit(hi * 256 + last, k) == Bit(hi, k - 8)
  {
    if k < 8 {
      LowEight(hi, last, k);
      LowEight(hi, last, k + 1);
      LowSplit(hi * 256 + last, k);
      LowSplit(last, k);
    } else {
      ShrEight(hi, last, k - 8);
    }
  }
}
