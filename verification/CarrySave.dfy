/** Carry-save adders of w bits, the four-input tree, and the eight-input tree whose inputs and
    intermediate results can be shifted right before they are added. */
module CarrySave {
  import opened BitSlices

  function SumBits(x: nat, y: nat, z: nat, w: nat): nat {
    if w == 0 then 0 else (x % 2 + y % 2 + z % 2) % 2 + 2 * SumBits(x / 2, y / 2, z / 2, w - 1)
  }
  function CarryBits(x: nat, y: nat, z: nat, w: nat): nat {
    if w == 0 then 0 else (x % 2 + y % 2 + z % 2) / 2 + 2 * CarryBits(x / 2, y / 2, z / 2, w - 1)
  }

  datatype Pair = Pair(s: nat, c: nat) {
    function Total(): nat { s + c }
    predicate Multiple(k: nat) { Low(s, k) == 0 && Low(c, k) == 0 }
  }

  /** One full adder per bit; the carries are aligned by a shift that drops the top one. */
  function Csa(x: nat, y: nat, z: nat, w: nat): Pair {
    Pair(SumBits(x, y, z, w), Low(2 * CarryBits(x, y, z, w), w))
  }

  lemma {:induction false} FullAdders(x: nat, y: nat, z: nat, w: nat)
    requires x < Pow2(w) && y < Pow2(w) && z < Pow2(w)
    ensures SumBits(x, y, z, w) + 2 * CarryBits(x, y, z, w) == x + y + z
    ensures SumBits(x, y, z, w) < Pow2(w) && CarryBits(x, y, z, w) < Pow2(w)
  {
    if w > 0 {
      FullAdders(x / 2, y / 2, z / 2, w - 1);
    }
  }

  lemma LowOnce(x: nat, k: nat)
    requires x < 2 * Pow2(k)
    ensures Low(x, k) == if x < Pow2(k) then x else x - Pow2(k)
  {
    hide Low, High, Pow2;
    HighZero(x, k);
    SlicesAreDivMod(x, k);
    var h := High(x, k);
    if h >= 2 {
      MulMonotone(2, h, Pow2(k));
    }
  }

  /** The sum is preserved modulo 2^w, and exactly when it fits. */
  lemma CsaSum(x: nat, y: nat, z: nat, w: nat)
    requires x < Pow2(w) && y < Pow2(w) && z < Pow2(w)
    ensures Csa(x, y, z, w).s < Pow2(w) && Csa(x, y, z, w).c < Pow2(w)
    ensures var t := Csa(x, y, z, w).Total(); t == x + y + z || t + Pow2(w) == x + y + z
    ensures x + y + z < Pow2(w) ==> Csa(x, y, z, w).Total() == x + y + z
  {
    hide Low, Pow2, SumBits, CarryBits;
    FullAdders(x, y, z, w);
    LowOnce(2 * CarryBits(x, y, z, w), w);
  }

  lemma {:induction false} BitMultiples(x: nat, y: nat, z: nat, w: nat, k: nat)
    requires k <= w && Low(x, k) == 0 && Low(y, k) == 0 && Low(z, k) == 0
    ensures Low(SumBits(x, y, z, w), k) == 0 && Low(CarryBits(x, y, z, w), k) == 0
  {
    hide Low;
    LowEdge(x, k);
    LowEdge(y, k);
    LowEdge(z, k);
    LowEdge(SumBits(x, y, z, w), k);
    LowEdge(CarryBits(x, y, z, w), k);
    if k > 0 {
      BitMultiples(x / 2, y / 2, z / 2, w - 1, k - 1);
    }
  }

  lemma LowEdge(v: nat, k: nat)
    ensures Low(v, k) == if k == 0 then 0 else v % 2 + 2 * Low(v / 2, k - 1)
  {
  }

  lemma {:induction false} MultipleWeaken(v: nat, j: nat, k: nat)
    requires j <= k && Low(v, k) == 0
    ensures Low(v, j) == 0
  {
    if j > 0 {
      MultipleWeaken(v / 2, j - 1, k - 1);
    }
  }

  lemma {:induction false} LowOfLow(v: nat, j: nat, k: nat)
    requires j <= k
    ensures Low(Low(v, k), j) == Low(v, j)
  {
    if j > 0 {
      LowOfLow(v / 2, j - 1, k - 1);
    }
  }

  /** Common factors 2^k survive in both outputs. */
  lemma CsaMultiple(x: nat, y: nat, z: nat, w: nat, k: nat)
    requires k <= w && Low(x, k) == 0 && Low(y, k) == 0 && Low(z, k) == 0
    ensures Csa(x, y, z, w).Multiple(k)
  {
    hide SumBits, CarryBits, Low, Pow2;
    BitMultiples(x, y, z, w, k);
    var m := CarryBits(x, y, z, w);
    LowOfLow(2 * m, k, w);
    assert (2 * m) / 2 == m && (2 * m) % 2 == 0;
    LowEdge(2 * m, k);
    if k > 0 {
      MultipleWeaken(m, k - 1, k);
    }
  }

  // ---------------------------------------------------------------------------------------
  // Trees

  function Tree4(a0: nat, a1: nat, a2: nat, a3: nat, w: nat): Pair {
    var top := Csa(a0, a1, a2, w);
    Csa(top.s, top.c, a3, w)
  }

  lemma Tree4Sum(a0: nat, a1: nat, a2: nat, a3: nat, w: nat, k: nat)
    requires k <= w && a0 + a1 + a2 + a3 < Pow2(w)
    requires Low(a0, k) == 0 && Low(a1, k) == 0 && Low(a2, k) == 0 && Low(a3, k) == 0
    ensures Tree4(a0, a1, a2, a3, w).Total() == a0 + a1 + a2 + a3
    ensures Tree4(a0, a1, a2, a3, w).Multiple(k)
  {
    hide Low, Pow2, Csa;
    var top := Csa(a0, a1, a2, w);
    CsaSum(a0, a1, a2, w);
    CsaMultiple(a0, a1, a2, w, k);
    CsaSum(top.s, top.c, a3, w);
    CsaMultiple(top.s, top.c, a3, w, k);
  }

  datatype Align = Align(s1a: bool, s2a: bool, amount1: nat, amount2: nat) {
    function First(): nat { if s1a then amount1 else 0 }
    function Second(): nat { if s2a then amount2 else 0 }
  }

  datatype TreeOut = TreeOut(o: Pair, right: Pair, left: Pair)

  /** Inputs 2, 3, 6 and 7 may be shifted by the first amount, the left half's result by the second.
      The halves' results are the taps. */
  function Tree8(a: seq<nat>, al: Align, w: nat): TreeOut
    requires |a| == 8
  {
    var n1 := al.First();
    var right := Tree4(a[0], a[1], High(a[2], n1), High(a[3], n1), w);
    var left := Tree4(a[4], a[5], High(a[6], n1), High(a[7], n1), w);
    var n2 := al.Second();
    TreeOut(Tree4(right.s, right.c, High(left.s, n2), High(left.c, n2), w), right, left)
  }

  function Sum8(a: seq<nat>): nat requires |a| == 8 {
    a[0] + a[1] + a[2] + a[3] + (a[4] + a[5] + a[6] + a[7])
  }

  /** Shift distance of input q before alignment, above the common distance. */
  function Offset(al: Align, q: nat): nat {
    (if q % 4 >= 2 then al.First() else 0) + (if q >= 4 then al.Second() else 0)
  }

  /** a[q] is x[q], shifted left by e and by the distance the tree will take back. */
  ghost predicate Shifted(a: seq<nat>, x: seq<nat>, e: nat, al: Align) {
    && |a| == 8 && |x| == 8
    && forall q :: 0 <= q < 8 ==> a[q] == x[q] * Pow2(e + Offset(al, q))
  }

  lemma ShiftBack(x: nat, e: nat, k: nat)
    ensures High(x * Pow2(e + k), k) == x * Pow2(e) && Low(x * Pow2(e + k), e + k) == 0
    ensures x * Pow2(e) <= x * Pow2(e + k)
  {
    hide Low, High, Pow2;
    ShiftIsMultiple(x, e + k);
    ShiftRight(x, e, k);
    Pow2Monotone(e, e + k);
    assert x * (Pow2(e + k) - Pow2(e)) >= 0;
  }

  lemma LowOfDouble(y: nat, k: nat)
    requires k > 0
    ensures Low(2 * y, k) == 2 * Low(y, k - 1)
  {
    hide Low, Pow2;
    LowEdge(2 * y, k);
    assert (2 * y) / 2 == y && (2 * y) % 2 == 0;
  }

  lemma {:induction false} ShiftIsMultiple(x: nat, k: nat)
    ensures Low(x * Pow2(k), k) == 0
  {
    hide Low;
    LowEdge(x * Pow2(k), k);
    if k > 0 {
      ShiftIsMultiple(x, k - 1);
      MulDouble(x, Pow2(k - 1));
      LowOfDouble(x * Pow2(k - 1), k);
    }
  }

  lemma {:induction false} ShiftRight(x: nat, e: nat, k: nat)
    ensures High(x * Pow2(e + k), k) == x * Pow2(e)
  {
    if k > 0 {
      MulDouble(x, Pow2(e + k - 1));
      ShiftRight(x, e, k - 1);
    }
  }

  /** A pair of multiples whose sum is n * 2^k: shifting each one right divides the sum exactly. */
  lemma PairShift(p: Pair, n: nat, e: nat, k: nat)
    requires p.Multiple(e + k) && p.Total() == n * Pow2(e + k)
    ensures High(p.s, k) + High(p.c, k) == n * Pow2(e)
    ensures Low(High(p.s, k), e) == 0 && Low(High(p.c, k), e) == 0
  {
    hide Low, High, Pow2;
    var hs, hc := High(p.s, e + k), High(p.c, e + k);
    SlicesAreDivMod(p.s, e + k);
    SlicesAreDivMod(p.c, e + k);
    Distribute2(hs, hc, Pow2(e + k));
    Cancel(hs + hc, n, Pow2(e + k));
    ShiftBack(hs, e, k);
    ShiftBack(hc, e, k);
    ShiftIsMultiple(hs, e);
    ShiftIsMultiple(hc, e);
    Distribute2(hs, hc, Pow2(e));
  }

  lemma Distribute2(a: nat, b: nat, m: nat)
    ensures a * m + b * m == (a + b) * m
  {
  }

  lemma Cancel(x: int, y: int, m: nat)
    requires m > 0 && x * m == y * m
    ensures x == y
  {
    if x < y {
      MulMonotone(x + 1, y, m);
    } else if x > y {
      MulMonotone(y + 1, x, m);
    }
  }

  lemma Half(b0: nat, b1: nat, b2: nat, b3: nat, x0: nat, x1: nat, x2: nat, x3: nat, e: nat, k: nat, w: nat)
    requires e + k <= w && b0 + b1 + b2 + b3 < Pow2(w)
    requires b0 == x0 * Pow2(e) && b1 == x1 * Pow2(e) && b2 == x2 * Pow2(e + k) && b3 == x3 * Pow2(e + k)
    ensures var t := Tree4(b0, b1, High(b2, k), High(b3, k), w);
      t.Multiple(e) && t.Total() == (x0 + x1 + x2 + x3) * Pow2(e) && t.Total() <= b0 + b1 + b2 + b3
  {
    hide Low, High, Pow2, Tree4;
    ShiftBack(x0, e, 0);
    ShiftBack(x1, e, 0);
    ShiftBack(x2, e, k);
    ShiftBack(x3, e, k);
    ShiftIsMultiple(x2, e);
    ShiftIsMultiple(x3, e);
    Tree4Sum(b0, b1, High(b2, k), High(b3, k), w, e);
    Distribute2(x0, x1, Pow2(e));
    Distribute2(x0 + x1, x2, Pow2(e));
    Distribute2(x0 + x1 + x2, x3, Pow2(e));
  }

  lemma Offsets(al: Align)
    ensures Offset(al, 0) == Offset(al, 1) == 0 && Offset(al, 2) == Offset(al, 3) == al.First()
    ensures Offset(al, 4) == Offset(al, 5) == al.Second() && Offset(al, 6) == Offset(al, 7) == al.First() + al.Second()
  {
  }

  /** With the alignment that matches how the inputs are shifted, both taps and the output are exact. */
  lemma TreeAligned(a: seq<nat>, x: seq<nat>, e: nat, al: Align, w: nat)
    requires Shifted(a, x, e, al) && Sum8(a) < Pow2(w) && e + al.First() + al.Second() <= w
    ensures var t := Tree8(a, al, w);
      && t.o.Total() == Sum8(x) * Pow2(e) && t.o.Multiple(e)
      && t.right.Total() == (x[0] + x[1] + x[2] + x[3]) * Pow2(e) && t.right.Multiple(e)
      && t.left.Total() == (x[4] + x[5] + x[6] + x[7]) * Pow2(e + al.Second()) && t.left.Multiple(e + al.Second())
      && t.o.Total() <= Sum8(a)
  {
    hide Low, High, Pow2, Tree4, Offset;
    var n1, n2 := al.First(), al.Second();
    var xr, xl := x[0] + x[1] + x[2] + x[3], x[4] + x[5] + x[6] + x[7];
    Offsets(al);
    assert e + n2 + n1 == e + (n1 + n2);
    Half(a[0], a[1], a[2], a[3], x[0], x[1], x[2], x[3], e, n1, w);
    Half(a[4], a[5], a[6], a[7], x[4], x[5], x[6], x[7], e + n2, n1, w);
    var t := Tree8(a, al, w);
    PairShift(t.left, xl, e, n2);
    ShiftBack(xl, e, n2);
    Tree4Sum(t.right.s, t.right.c, High(t.left.s, n2), High(t.left.c, n2), w, e);
    Distribute2(xr, xl, Pow2(e));
  }
}
