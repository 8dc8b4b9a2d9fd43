/** Restoring divider: the arithmetic behind its combinational blocks. */
module DivArith {
  import opened BitSlices
  import DivSpec
  import opened DivModel

  // ---------------------------------------------------------------------------------------
  // Leading zeros and bit masks

  /** The halving counter finds the leading one. */
  lemma {:induction false} ClzLeading(x: nat, n: nat)
    requires 0 < x < Pow2(Pow2(n))
    ensures High(x, Pow2(n) - 1 - Clz(x, n)) == 1
    decreases n
  {
    if n > 0 {
      var half := Pow2(n - 1);
      var upper := High(x, half);
      HighBound(x, half, half);
      if upper != 0 {
        ClzLeading(upper, n - 1);
        HighCompose(x, half, half - 1 - Clz(upper, n - 1));
      } else {
        HighZero(x, half);
        ClzLeading(x, n - 1);
      }
    }
  }

  lemma {:induction false} AndSelf(x: nat)
    ensures And(x, x) == x
  {
    if x > 0 {
      AndSelf(x / 2);
    }
  }

  /** b & (b - 1) vanishes exactly for the power of two at b's leading one. */
  lemma {:induction false} AndPred(b: nat, p: nat)
    requires High(b, p) == 1
    ensures b > 0 && (And(b, b - 1) == 0 <==> b == Pow2(p))
    decreases p
  {
    if p > 0 {
      AndPred(b / 2, p - 1);
      if b % 2 == 1 {
        AndSelf(b / 2);
        assert (b - 1) / 2 == b / 2;
      } else {
        assert (b - 1) / 2 == b / 2 - 1;
      }
    }
  }

  lemma AndEdge(x: nat, y: nat)
    ensures And(x, y) == if x == 0 || y == 0 then 0 else (if x % 2 == 1 && y % 2 == 1 then 1 else 0) + 2 * And(x / 2, y / 2)
  {
  }

  lemma LowBit(x: nat, j: nat)
    ensures Low(x, j) == if j == 0 then 0 else x % 2 + 2 * Low(x / 2, j - 1)
    ensures Pow2(j) == if j == 0 then 1 else 2 * Pow2(j - 1)
  {
  }

  /** x & (2^j - 1) keeps the low j bits. */
  lemma {:induction false} AndMask(x: nat, j: nat)
    ensures And(x, Pow2(j) - 1) == Low(x, j)
    decreases j
  {
    hide And, Low, Pow2;
    LowBit(x, j);
    AndEdge(x, Pow2(j) - 1);
    if j > 0 {
      AndMask(x / 2, j - 1);
      assert (Pow2(j) - 1) / 2 == Pow2(j - 1) - 1 && (Pow2(j) - 1) % 2 == 1;
      AndEdge(x / 2, Pow2(j - 1) - 1);
    }
  }

  // ---------------------------------------------------------------------------------------
  // Quotients

  lemma {:induction false} MulLess(q1: nat, q2: nat, d: nat)
    requires q1 < q2
    ensures q1 * d + d <= q2 * d
  {
    assert (q2 - 1) * d + d == q2 * d;
    if q1 < q2 - 1 {
      MulLess(q1, q2 - 1, d);
    }
  }

  lemma ModOnce(x: nat, m: nat)
    requires x < m
    ensures x % m == x && (m + x) % m == x
  {
  }

  lemma NegValue(x: nat, m: nat)
    requires x < m
    ensures Neg(x, m) == if x == 0 then 0 else m - x
  {
    if x == 0 {
      ModOnce(0, m);
    } else {
      ModOnce(m - x, m);
    }
  }

  lemma DivUnique(x: nat, d: nat, q: nat, r: nat)
    requires x == q * d + r && r < d
    ensures q == x / d && r == x % d
  {
    var q', r' := x / d, x % d;
    assert x == q' * d + r' by { DivSpec.DivRange(x, d); }
    if q < q' {
      MulLess(q, q', d);
    } else if q' < q {
      MulLess(q', q, d);
    }
  }

  /** Signs, magnitudes and special cases of the captured operands. */
  lemma SetupMeaning(i: In, lw: nat)
    requires InOk(i, lw) && lw > 0
    ensures var u, m := SetupOf(i, lw), Modulus(lw);
      && (i.opUns ==> u.absA == i.a && u.absB == i.b && !u.quotNeg && !u.remNeg)
      && (!i.opUns ==>
          var sa, sb := DivSpec.Signed(i.a, m), DivSpec.Signed(i.b, m);
          u.absA == DivSpec.Abs(sa) && u.absB == DivSpec.Abs(sb) && u.remNeg == (sa < 0) && u.quotNeg == ((sa < 0) != (sb < 0)))
      && (u.absB == 0 <==> i.b == 0) && IsWord(u.absA, lw) && IsWord(u.absB, lw)
      && (!i.opUns ==> 2 * u.absA <= m)
  {
    hide Neg;
    NegValue(i.a, Modulus(lw));
    NegValue(i.b, Modulus(lw));
  }

  lemma NegWrap(q: int, m: nat)
    requires 0 <= q < m
    ensures Neg(q, m) == DivSpec.WordOf(-q, m) && q == DivSpec.WordOf(q, m)
  {
    NegValue(q, m);
    ModOnce(q, m);
    if q > 0 {
      ModNegative(-q, m);
    }
  }

  lemma ModNegative(x: int, m: int)
    requires -m <= x < 0
    ensures x % m == (x + m) % m
  {
    DivSpec.IntDiv(x, m);
    DivSpec.IntDiv(x + m, m);
    var q1, q2 := x / m, (x + m) / m;
    assert x == q1 * m + x % m && x + m == q2 * m + (x + m) % m;
    if q2 > q1 + 1 {
      MulGap(q1 + 1, q2, m);
    } else if q2 < q1 + 1 {
      MulGap(q2, q1 + 1, m);
    }
  }

  lemma MulGap(q1: int, q2: int, m: nat)
    requires q1 < q2
    ensures q1 * m + m <= q2 * m
  {
    MulLess(0, q2 - q1, m);
    assert q2 * m == q1 * m + (q2 - q1) * m;
  }

  /** Applying the signs to the quotient and remainder of the magnitudes gives the ISA's result. */
  lemma FixupCorrect(i: In, lw: nat, q: nat, r: nat)
    requires InOk(i, lw) && lw > 0 && i.b != 0
    requires SetupOf(i, lw).absB > 0
    requires q == SetupOf(i, lw).absA / SetupOf(i, lw).absB && r == SetupOf(i, lw).absA % SetupOf(i, lw).absB
    ensures IsWord(q, lw) && IsWord(r, lw)
    ensures var u, m := SetupOf(i, lw), Modulus(lw);
      && (if u.quotNeg then Neg(q, m) else q) == DivSpec.Quotient(i.opUns, i.a, i.b, m)
      && (if u.remNeg then Neg(r, m) else r) == DivSpec.Remainder(i.opUns, i.a, i.b, m)
  {
    var u, m := SetupOf(i, lw), Modulus(lw);
    SetupMeaning(i, lw);
    DivSpec.DivRange(u.absA, u.absB);
    NegWrap(q, m);
    NegWrap(r, m);
  }

  // ---------------------------------------------------------------------------------------
  // Special cases

  /** What a divide that needs no iteration returns. */
  lemma SpecialCorrect(i: In, lw: nat)
    requires InOk(i, lw) && lw > 0 && Special(SetupOf(i, lw))
    ensures SpecialResult(SetupOf(i, lw), lw) ==
      if i.opRem then DivSpec.Remainder(i.opUns, i.a, i.b, Modulus(lw)) else DivSpec.Quotient(i.opUns, i.a, i.b, Modulus(lw))
  {
    var u, m := SetupOf(i, lw), Modulus(lw);
    SetupMeaning(i, lw);
    if !u.divByZero {
      if u.overflow {
        assert u.absA == i.a && u.absB == 1;
        FixupCorrect(i, lw, i.a, 0);
      } else if LessThan(u) {
        DivUnique(u.absA, u.absB, 0, u.absA);
        FixupCorrect(i, lw, 0, u.absA);
        NegNeg(i, lw);
      } else {
        PowerOfTwoCorrect(i, lw);
      }
    }
  }

  /** Negating a magnitude back gives the operand. */
  lemma NegNeg(i: In, lw: nat)
    requires InOk(i, lw)
    ensures var u := SetupOf(i, lw);
      IsWord(u.absA, lw) && (if u.remNeg then Neg(u.absA, Modulus(lw)) else u.absA) == i.a
  {
    hide Neg;
    NegValue(i.a, Modulus(lw));
    if SetupOf(i, lw).remNeg {
      NegValue(SetupOf(i, lw).absA, Modulus(lw));
    }
  }

  /** For a power of two the shift is the quotient and the mask the remainder. */
  lemma PowerOfTwoParts(u: Setup, lw: nat)
    requires 0 < u.absB && IsWord(u.absB, lw) && And(u.absB, u.absB - 1) == 0
    ensures Shr(u.absA, Width(lw) - 1 - Clz(u.absB, lw)) == u.absA / u.absB
    ensures And(u.absA, u.absB - 1) == u.absA % u.absB
  {
    hide Pow2, High, Low, Clz, And;
    var j := Width(lw) - 1 - Clz(u.absB, lw);
    ClzLeading(u.absB, lw);
    AndPred(u.absB, j);
    AndMask(u.absA, j);
    SlicesAreDivMod(u.absA, j);
    DivUnique(u.absA, u.absB, High(u.absA, j), Low(u.absA, j));
  }

  lemma PowerOfTwoCorrect(i: In, lw: nat)
    requires InOk(i, lw) && lw > 0 && i.b != 0
    requires PowerOfTwo(SetupOf(i, lw)) && !SetupOf(i, lw).overflow && !LessThan(SetupOf(i, lw))
    ensures SpecialResult(SetupOf(i, lw), lw) ==
      if i.opRem then DivSpec.Remainder(i.opUns, i.a, i.b, Modulus(lw)) else DivSpec.Quotient(i.opUns, i.a, i.b, Modulus(lw))
  {
    hide Neg, Pow2, High, Low, Clz, And, SetupOf, DivSpec.Quotient, DivSpec.Remainder;
    var u, m := SetupOf(i, lw), Modulus(lw);
    SetupMeaning(i, lw);
    SetupCopies(i, lw);
    PowerOfTwoParts(u, lw);
    var q, r := u.absA / u.absB, u.absA % u.absB;
    FixupCorrect(i, lw, q, r);
    ModOnce(q, m);
    ModOnce(r, m);
  }

  lemma SetupCopies(i: In, lw: nat)
    requires InOk(i, lw)
    ensures var u := SetupOf(i, lw);
      u.a == i.a && u.b == i.b && u.opRem == i.opRem && u.opUns == i.opUns && u.divByZero == (i.b == 0)
  {
  }

  // ---------------------------------------------------------------------------------------
  // Normalisation and one restoring step

  lemma IterCountRange(u: Setup, lw: nat)
    requires lw > 0 && IsWord(u.absA, lw) && 0 < u.absB <= u.absA
    ensures Clz(u.absA, lw) <= Clz(u.absB, lw)
    ensures IterCount(u, lw) == Clz(u.absB, lw) - Clz(u.absA, lw) + 1 <= Width(lw)
    ensures Skip(u, lw) == Width(lw) - IterCount(u, lw)
  {
    hide Pow2, High, Low, Clz;
    var w, ca, cb := Width(lw), Clz(u.absA, lw), Clz(u.absB, lw);
    ClzLeading(u.absA, lw);
    ClzLeading(u.absB, lw);
    if ca > cb {
      LeadingOne(u.absA, w - 1 - ca);
      LeadingOne(u.absB, w - 1 - cb);
      Pow2Monotone(w - ca, w - 1 - cb);
    }
    var skip := ca + (w - cb - 1);
    ModOnce(skip, 2 * w);
    ModOnce(w - skip, 2 * w);
    assert w + 2 * w - skip == 2 * w + (w - skip);
  }

  /** Normalisation loses nothing: the high part starts as the remainder, below the divisor, and the
      rest waits left-aligned in the dividend register. */
  lemma NormaliseCorrect(u: Setup, lw: nat)
    requires lw > 0 && IsWord(u.absA, lw) && IsWord(u.absB, lw) && 0 < u.absB <= u.absA
    ensures var n, m := IterCount(u, lw), Modulus(lw);
      && n <= Width(lw)
      && Shr(u.absA, n) < u.absB
      && Shl(u.absA, Skip(u, lw), m) == Low(u.absA, n) * Pow2(Width(lw) - n)
  {
    var w, m, n := Width(lw), Modulus(lw), IterCount(u, lw);
    IterCountRange(u, lw);
    // rem < divisor
    var pa, pb := w - 1 - Clz(u.absA, lw), w - 1 - Clz(u.absB, lw);
    ClzLeading(u.absA, lw);
    ClzLeading(u.absB, lw);
    LeadingOne(u.absA, pa);
    LeadingOne(u.absB, pb);
    assert pa + 1 == n + pb;
    HighBound(u.absA, n, pb);
    // dividend
    SlicesAreDivMod(u.absA, n);
    Pow2Add(n, w - n);
    ShiftSplit(High(u.absA, n), Low(u.absA, n), Pow2(n), Pow2(w - n), m);
  }

  lemma ShiftSplit(h: nat, l: nat, p: nat, s: nat, m: nat)
    requires m == p * s && l < p && m > 0
    ensures (h * p + l) * s % m == l * s
  {
    assert (h * p + l) * s == h * m + l * s;
    assert l * s < m by {
      MulLess(l, p, s);
      assert s > 0;
    }
    DivUniqueMod(h * m + l * s, m, h, l * s);
  }

  lemma DivUniqueMod(x: nat, d: nat, q: nat, r: nat)
    requires x == q * d + r && r < d
    ensures x % d == r
  {
    DivUnique(x, d, q, r);
  }

  /** The restoring invariant with k dividend bits left: the consumed prefix of |a| is
      quot * divisor + rem with rem below the divisor, the remaining bits are left-aligned in the
      dividend register, and nothing has been truncated. */
  ghost predicate Restoring(d: Ds, absA: nat, k: nat, lw: nat) {
    && k <= Width(lw) && IsWord(absA, lw) && IsWord(d.divisor, lw)
    && d.rem < d.divisor
    && High(absA, k) == d.quot * d.divisor + d.rem
    && d.dividend == Low(absA, k) * Pow2(Width(lw) - k)
    && d.quot < Pow2(Width(lw) - k)
  }

  lemma LeftAlignedWord(l: nat, k: nat, w: nat)
    requires k <= w && l < Pow2(k)
    ensures l * Pow2(w - k) < Pow2(w)
  {
    Pow2Add(k, w - k);
    MulLess(l, Pow2(k), Pow2(w - k));
  }

  /** The dividend bit shifted into the remainder, and what stays in the register. */
  lemma DividendStep(absA: nat, k: nat, lw: nat)
    requires IsWord(absA, lw) && 0 < k <= Width(lw)
    ensures var d, m := Low(absA, k) * Pow2(Width(lw) - k), Modulus(lw);
      && d < m
      && (2 * d >= m <==> High(absA, k - 1) % 2 == 1)
      && 2 * d % m == Low(absA, k - 1) * Pow2(Width(lw) - (k - 1))
  {
    hide High, Low;
    var w, m := Width(lw), Modulus(lw);
    var bit, l, q, p := High(absA, k - 1) % 2, Low(absA, k - 1), Pow2(k - 1), Pow2(w - k);
    LeftAlignedWord(Low(absA, k), k, w);
    SplitNext(absA, k);
    Pow2Add(k - 1, w - k + 1);
    assert Pow2(w - k + 1) == 2 * p;
    MulDouble(Low(absA, k), p);
    TopBit(bit, l, q, 2 * p, m, 2 * (Low(absA, k) * p));
  }

  lemma TopBit(bit: nat, l: nat, q: nat, p: nat, m: nat, d: nat)
    requires bit <= 1 && l < q && p > 0 && m == q * p && d == (bit * q + l) * p
    ensures m > 0 && (d >= m <==> bit == 1) && d % m == l * p
  {
    MulLess(l, q, p);
    assert d == bit * m + l * p;
    DivUniqueMod(d, m, bit, l * p);
  }

  /** One step keeps the restoring invariant; the carry of the complement addition is exactly
      "remainder at least divisor". */
  lemma IterateKeeps(d: Ds, absA: nat, k: nat, lw: nat)
    requires Restoring(d, absA, k, lw) && k > 0
    ensures d.dividend < Modulus(lw)
    ensures var t := Iterate(d, Modulus(lw));
      Restoring(d.(dividend := t.dividend, quot := t.quot, rem := t.rem), absA, k - 1, lw)
  {
    hide High, Low, Iterate;
    var w, m := Width(lw), Modulus(lw);
    var bit := High(absA, k - 1) % 2;
    DividendStep(absA, k, lw);
    SplitNext(absA, k);
    assert Pow2(w - (k - 1)) == 2 * Pow2(w - k);
    Pow2Monotone(w - k + 1, w);
    IterateMeaning(d, m, bit);
    QuotStep(d.quot, d.divisor, d.rem, bit, High(absA, k));
  }

  /** The step without its truncations. */
  lemma IterateMeaning(d: Ds, m: nat, bit: nat)
    requires d.dividend < m && d.rem < d.divisor < m && 2 * d.quot < m && bit <= 1
    requires 2 * d.dividend >= m <==> bit == 1
    ensures var t, r := Iterate(d, m), 2 * d.rem + bit;
      && t.subtract == (r >= d.divisor)
      && t.rem == (if r >= d.divisor then r - d.divisor else r)
      && t.quot == 2 * d.quot + (if r >= d.divisor then 1 else 0)
      && t.dividend == 2 * d.dividend % m
  {
    var r := 2 * d.rem + bit;
    ModOnce(2 * d.quot, m);
    if r >= d.divisor {
      assert r + (2 * m - 1 - d.divisor) + 1 == 2 * m + (r - d.divisor);
      ModOnce(r - d.divisor, 2 * m);
      ModOnce(r - d.divisor, m);
    } else {
      ModOnce(r, m);
    }
  }

  lemma QuotStep(q: nat, d: nat, r: nat, bit: nat, h: nat)
    requires h == q * d + r
    ensures 2 * h + bit == (2 * q) * d + (2 * r + bit)
    ensures 2 * r + bit >= d ==> 2 * h + bit == (2 * q + 1) * d + (2 * r + bit - d)
  {
    MulDouble(d, q);
  }
}
