/** Bit slices of natural numbers: the low k bits, the bits above them, and their concatenation. */
module BitSlices {

  function Pow2(k: nat): (p: nat)
    ensures p >= 1
  {
    if k == 0 then 1 else 2 * Pow2(k - 1)
  }

  function Low(n: nat, k: nat): (r: nat)
    ensures r < Pow2(k)
  {
    if k == 0 then 0 else n % 2 + 2 * Low(n / 2, k - 1)
  }

  function High(n: nat, k: nat): nat {
    if k == 0 then n else High(n / 2, k - 1)
  }

  /** { hi, lo[k-1:0] } */
  function Join(hi: nat, lo: nat, k: nat): nat {
    if k == 0 then hi else lo % 2 + 2 * Join(hi, lo / 2, k - 1)
  }

  lemma {:induction false} JoinSlices(n: nat, k: nat)
    ensures Join(High(n, k), Low(n, k), k) == n
  {
    if k > 0 {
      JoinSlices(n / 2, k - 1);
    }
  }

  lemma {:induction false} SlicesOfJoin(hi: nat, lo: nat, k: nat)
    requires lo < Pow2(k)
    ensures High(Join(hi, lo, k), k) == hi && Low(Join(hi, lo, k), k) == lo
  {
    if k > 0 {
      SlicesOfJoin(hi, lo / 2, k - 1);
    }
  }

  lemma {:induction false} JoinInjective(h1: nat, l1: nat, h2: nat, l2: nat, k: nat)
    requires l1 < Pow2(k) && l2 < Pow2(k)
    requires Join(h1, l1, k) == Join(h2, l2, k)
    ensures h1 == h2 && l1 == l2
  {
    SlicesOfJoin(h1, l1, k);
    SlicesOfJoin(h2, l2, k);
  }

  lemma {:induction false} JoinBound(hi: nat, lo: nat, k: nat)
    requires lo < Pow2(k)
    ensures hi == 0 ==> Join(hi, lo, k) == lo
    ensures Join(hi, lo, k) < (hi + 1) * Pow2(k)
  {
    if k > 0 {
      JoinBound(hi, lo / 2, k - 1);
      assert (hi + 1) * (2 * Pow2(k - 1)) == 2 * ((hi + 1) * Pow2(k - 1));
    }
  }

  lemma {:induction false} Pow2Monotone(j: nat, k: nat)
    requires j <= k
    ensures Pow2(j) <= Pow2(k)
  {
    if j < k {
      Pow2Monotone(j, k - 1);
    }
  }

  lemma MulDouble(x: nat, y: nat)
    ensures x * (2 * y) == 2 * (x * y)
  {
  }

  /** The slices are the remainder and the quotient by 2^k. */
  lemma {:induction false} SlicesAreDivMod(n: nat, k: nat)
    ensures n == High(n, k) * Pow2(k) + Low(n, k)
  {
    if k > 0 {
      SlicesAreDivMod(n / 2, k - 1);
      MulDouble(High(n / 2, k - 1), Pow2(k - 1));
    }
  }

  lemma {:induction false} Pow2Add(j: nat, k: nat)
    ensures Pow2(j + k) == Pow2(j) * Pow2(k)
  {
    if j > 0 {
      Pow2Add(j - 1, k);
      MulDouble(Pow2(k), Pow2(j - 1));
    }
  }

  lemma {:induction false} HighCompose(n: nat, j: nat, k: nat)
    ensures High(High(n, j), k) == High(n, j + k)
  {
    if j > 0 {
      HighCompose(n / 2, j - 1, k);
    }
  }

  lemma {:induction false} HighBound(n: nat, j: nat, k: nat)
    requires n < Pow2(j + k)
    ensures High(n, j) < Pow2(k)
  {
    if j > 0 {
      HighBound(n / 2, j - 1, k);
    }
  }

  lemma {:induction false} HighMonotone(x: nat, y: nat, k: nat)
    requires x <= y
    ensures High(x, k) <= High(y, k)
  {
    if k > 0 {
      HighMonotone(x / 2, y / 2, k - 1);
    }
  }

  /** Nothing above the low k bits: the number is its own slice. */
  lemma {:induction false} HighZero(n: nat, k: nat)
    ensures High(n, k) == 0 <==> n < Pow2(k)
    ensures High(n, k) == 0 ==> Low(n, k) == n
  {
    if k > 0 {
      HighZero(n / 2, k - 1);
    }
  }

  /** Bit k - 1 belongs to both neighbouring splits. */
  lemma {:induction false} SplitNext(n: nat, k: nat)
    requires k > 0
    ensures High(n, k - 1) == 2 * High(n, k) + High(n, k - 1) % 2
    ensures Low(n, k) == (High(n, k - 1) % 2) * Pow2(k - 1) + Low(n, k - 1)
  {
    if k > 1 {
      SplitNext(n / 2, k - 1);
      MulDouble(High(n / 2, k - 2) % 2, Pow2(k - 2));
    }
  }

  /** The leading one is at position p. */
  lemma {:induction false} LeadingOne(n: nat, p: nat)
    ensures High(n, p) == 1 <==> Pow2(p) <= n < Pow2(p + 1)
  {
    if p > 0 {
      LeadingOne(n / 2, p - 1);
    }
  }

  lemma MulMonotone(x: int, y: int, m: nat)
    requires x <= y
    ensures x * m <= y * m
  {
    assert (y - x) * m >= 0;
  }

  /** The slices are the only way to split a number at bit k. */
  lemma SlicesUnique(x: nat, h: nat, l: nat, k: nat)
    requires x == h * Pow2(k) + l && l < Pow2(k)
    ensures High(x, k) == h && Low(x, k) == l
  {
    hide Low, High, Pow2;
    SlicesAreDivMod(x, k);
    var g := High(x, k);
    if g < h {
      MulMonotone(g + 1, h, Pow2(k));
    } else if g > h {
      MulMonotone(h + 1, g, Pow2(k));
    }
  }

  lemma PowerStep(k: nat)
    ensures Pow2(k + 8) == 256 * Pow2(k) && Pow2(k + 1) == 2 * Pow2(k)
  {
    assert Pow2(k + 2) == 2 * Pow2(k + 1);
    assert Pow2(k + 4) == 2 * Pow2(k + 3);
    assert Pow2(k + 6) == 2 * Pow2(k + 5);
  }

  lemma SmallPowers()
    ensures Pow2(0) == 1 && Pow2(1) == 2 && Pow2(2) == 4 && Pow2(3) == 8 && Pow2(4) == 16 && Pow2(6) == 64 && Pow2(7) == 128
  {
    assert Pow2(4) == 16;
  }

  /** The powers of two that appear as word, lane and field sizes. */
  lemma PowerValues()
    ensures Pow2(0) == 1 && Pow2(1) == 2 && Pow2(2) == 4 && Pow2(3) == 8 && Pow2(4) == 16 && Pow2(6) == 64
    ensures Pow2(7) == 128 && Pow2(8) == 0x100 && Pow2(9) == 0x200 && Pow2(10) == 0x400
    ensures Pow2(15) == 0x8000 && Pow2(16) == 0x1_0000 && Pow2(17) == 0x2_0000 && Pow2(24) == 0x100_0000
    ensures Pow2(31) == 0x8000_0000 && Pow2(32) == 0x1_0000_0000 && Pow2(64) == 0x1_0000_0000_0000_0000
  {
    hide Pow2;
    SmallPowers();
    PowerStep(0);
    PowerStep(1);
    PowerStep(2);
    PowerStep(7);
    PowerStep(8);
    PowerStep(16);
    PowerStep(23);
    PowerStep(24);
    Pow2Add(32, 32);
  }
}
