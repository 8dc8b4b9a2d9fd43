/** The packed operations: every element of the result is the element operation on the corresponding
    elements of the operands; nothing crosses from one lane into another. */
module SimdLanes {
  import opened BitSlices
  import opened CarrySave
  import opened BaughWooley
  import opened WordArith
  import opened LaneModel
  import opened LaneProof
  import opened SimdModel
  import opened SimdTiles
  import opened SimdTrees

  predicate IsProduct(op: Op) { op.cls.Mul? || op.cls.WMul? }
  predicate IsPacked(op: Op) { IsProduct(op) || UseOperands(op) }

  /** Lane width of a packed operation. */
  function LaneBits(op: Op): (n: nat)
    ensures n == 8 || n == 16
  {
    if op.f1 then 8 else 16
  }

  lemma ProductSize(op: Op)
    requires IsProduct(op)
    ensures Size(op) == LaneBits(op) && IsUnsigned(op) == op.f0
    ensures CorrOf(op) == LaneCorr(LaneBits(op), op.f0)
    ensures Align2(Widths(op)).Second() == 32
  {
    hide Pow2;
  }

  /** A pair of multiples of 2^e whose sum is a small number shifted by e: the slice at e loses nothing. */
  lemma SliceTaps(p: Pair, v: nat, k: nat, n: nat)
    requires p.Multiple(n * k) && p.Total() == v * Pow2(n * k) && v < Pow2(n)
    ensures Slice(p.s, k, n) + Slice(p.c, k, n) == v
  {
    hide Low, High, Pow2;
    Unshift(p, v, n * k);
    LowAll(High(p.s, n * k), n);
    LowAll(High(p.c, n * k), n);
  }

  lemma ByteTaps(op: Op, a: nat, b: nat, k: nat)
    requires IsProduct(op) && op.f1 && k < 4
    ensures var t := FirstTree(op, a, b, k);
      Slice(t.s, k, 16) + Slice(t.c, k, 16) == TileValue(op.f0, Slice(a, k, 8), Slice(b, k, 8), 8, 8)
  {
    hide Pow2, Slice, TileValue, FirstTree, SumRows, Size, IsUnsigned, CorrOf, Align2, Widths;
    ProductSize(op);
    FirstLevel(op, a, b, k);
    TileRows(op.f0, a, b, 8, k, 8);
    TileFits(op.f0, Slice(a, k, 8), Slice(b, k, 8), 8);
    SliceTaps(FirstTree(op, a, b, k), TileValue(op.f0, Slice(a, k, 8), Slice(b, k, 8), 8, 8), k, 16);
  }

  lemma HalfTaps(op: Op, a: nat, b: nat, k: nat)
    requires IsProduct(op) && !op.f1 && k < 2
    ensures var t := if k == 0 then FinalTree(HeldOf(op, a, b)).right else FinalTree(HeldOf(op, a, b)).left;
      Slice(t.s, k, 32) + Slice(t.c, k, 32) == TileValue(op.f0, Slice(a, k, 16), Slice(b, k, 16), 16, 16)
  {
    hide Pow2, Slice, TileValue, FinalTree, SumRows, Size, IsUnsigned, CorrOf, Align2, Widths, HeldOf;
    ProductSize(op);
    FinalLevel(op, a, b);
    TileRows(op.f0, a, b, 16, k, 16);
    TileFits(op.f0, Slice(a, k, 16), Slice(b, k, 16), 16);
    var t := if k == 0 then FinalTree(HeldOf(op, a, b)).right else FinalTree(HeldOf(op, a, b)).left;
    if k == 0 {
      PowZero();
      LowNone(t.s);
      LowNone(t.c);
    }
    SliceTaps(t, TileValue(op.f0, Slice(a, k, 16), Slice(b, k, 16), 16, 16), k, 32);
  }

  lemma CorrSlice(n: nat, uns: bool)
    requires n > 1
    ensures Slice(LaneCorr(n, uns), 0, 2 * n) == LaneCorr(n, uns)
  {
    hide Pow2, Low;
    CorrFits(n, uns);
    LowAll(LaneCorr(n, uns), 2 * n);
  }

  lemma ByteElement(op: Op, a: nat, b: nat, k: nat)
    requires IsPacked(op) && op.f1 && k < 4
    ensures ByteLane(HeldOf(op, a, b), k) == Element(op, Slice(a, k, 8), Slice(b, k, 8), 8)
  {
    hide Pow2, Slice, TileValue, FirstTree, CorrOf, LaneOut, Element, LaneCorr, Align2, Widths, Bit;
    var t := FirstTree(op, a, b, k);
    if IsProduct(op) {
      ByteTaps(op, a, b, k);
      ProductSize(op);
      CorrSlice(8, op.f0);
    }
    SliceFits(a, k, 8);
    SliceFits(b, k, 8);
    LaneCorrect(op, Slice(a, k, 8), Slice(b, k, 8), Slice(t.s, k, 16), Slice(t.c, k, 16), Slice(CorrOf(op), 0, 16), 8);
  }

  lemma HalfElement(op: Op, a: nat, b: nat, k: nat)
    requires IsPacked(op) && !op.f1 && k < 2
    ensures HalfLane(HeldOf(op, a, b), k) == Element(op, Slice(a, k, 16), Slice(b, k, 16), 16)
  {
    hide Pow2, Slice, TileValue, FirstTree, FinalTree, CorrOf, LaneOut, Element, LaneCorr, Align2, Widths, Bit;
    var t := if k == 0 then FinalTree(HeldOf(op, a, b)).right else FinalTree(HeldOf(op, a, b)).left;
    if IsProduct(op) {
      HalfTaps(op, a, b, k);
      ProductSize(op);
      CorrSlice(16, op.f0);
    }
    SliceFits(a, k, 16);
    SliceFits(b, k, 16);
    LaneCorrect(op, Slice(a, k, 16), Slice(b, k, 16), Slice(t.s, k, 32), Slice(t.c, k, 32), Slice(CorrOf(op), 0, 32), 16);
  }

  // ---------------------------------------------------------------------------------------
  // Assembly

  lemma SliceOfJoin(hi: nat, lo: nat, k: nat, n: nat)
    requires lo < Pow2(n)
    ensures Slice(Join(hi, lo, n), 0, n) == lo && Slice(Join(hi, lo, n), k + 1, n) == Slice(hi, k, n)
  {
    hide Pow2, Low, High, Join;
    SlicesOfJoin(hi, lo, n);
    var x := Join(hi, lo, n);
    HighCompose(x, n, n * k);
    assert n * (k + 1) == n + n * k;
    assert High(x, 0) == x by { HighNone(x); }
    assert n * 0 == 0;
  }

  lemma HighNone(x: nat)
    ensures High(x, 0) == x
  {
  }

  lemma SliceWhole(x: nat, n: nat)
    requires x < Pow2(n)
    ensures Slice(x, 0, n) == x
  {
    hide Pow2, Low, High;
    HighNone(x);
    LowAll(x, n);
    assert n * 0 == 0;
  }

  /** Lane k of a concatenation is the k-th of its parts. */
  lemma ConcatSlices(x0: nat, x1: nat, x2: nat, x3: nat, n: nat)
    requires x0 < Pow2(n) && x1 < Pow2(n) && x2 < Pow2(n) && x3 < Pow2(n)
    ensures var y := Concat4(x0, x1, x2, x3, n); Slice(y, 0, n) == x0 && Slice(y, 1, n) == x1 && Slice(y, 2, n) == x2 && Slice(y, 3, n) == x3
    ensures var y := Concat2(x0, x1, n); Slice(y, 0, n) == x0 && Slice(y, 1, n) == x1
  {
    hide Pow2, Slice, Join;
    SliceWhole(x3, n);
    SliceWhole(x1, n);
    SliceOfJoin(x1, x0, 0, n);
    SliceOfJoin(x3, x2, 0, n);
    var h := Join(x3, x2, n);
    SliceOfJoin(h, x1, 0, n);
    SliceOfJoin(h, x1, 1, n);
    var g := Join(h, x1, n);
    SliceOfJoin(g, x0, 0, n);
    SliceOfJoin(g, x0, 1, n);
    SliceOfJoin(g, x0, 2, n);
  }

  lemma JoinFits(hi: nat, lo: nat, m: nat, n: nat)
    requires hi < Pow2(m) && lo < Pow2(n)
    ensures Join(hi, lo, n) < Pow2(m + n)
  {
    hide Pow2, Join;
    JoinBound(hi, lo, n);
    Pow2Add(m, n);
    MulMonotone(hi + 1, Pow2(m), Pow2(n));
  }

  lemma ConcatFits(x0: nat, x1: nat, x2: nat, x3: nat, n: nat)
    requires x0 < Pow2(n) && x1 < Pow2(n) && x2 < Pow2(n) && x3 < Pow2(n)
    ensures Concat4(x0, x1, x2, x3, n) < Pow2(4 * n) && Concat2(x0, x1, n) < Pow2(2 * n)
  {
    hide Pow2, Join;
    JoinFits(x1, x0, n, n);
    JoinFits(x3, x2, n, n);
    JoinFits(Join(x3, x2, n), x1, 2 * n, n);
    JoinFits(Join(Join(x3, x2, n), x1, n), x0, 3 * n, n);
  }

  /** Width of the result: the upper word stays zero unless the products are kept whole. */
  function ResultBits(op: Op): nat { if op.cls.WMul? then 64 else 32 }

  lemma ElementFits(op: Op, x: nat, y: nat, n: nat)
    requires n > 0
    ensures Element(op, x, y, n) < Pow2(2 * n)
    ensures !op.cls.WMul? ==> Element(op, x, y, n) < Pow2(n)
  {
    hide Pow2, Value, Clamp, High;
    Pow2Monotone(n, 2 * n);
    if op.cls.Mul? {
      var p := Wrap(Value(x, n, op.f0) * Value(y, n, op.f0), 2 * n);
      HighBound(p, n, n);
    }
  }

  /** Width of a lane of the result. */
  function OutBits(op: Op): nat { if op.cls.WMul? then 2 * LaneBits(op) else LaneBits(op) }

  lemma ByteLaneIs(op: Op, a: nat, b: nat, j: nat)
    requires IsPacked(op) && op.f1 && j < 4
    ensures ByteLane(HeldOf(op, a, b), j) == Element(op, Slice(a, j, 8), Slice(b, j, 8), 8) < Pow2(16)
    ensures !op.cls.WMul? ==> Low(ByteLane(HeldOf(op, a, b), j), 8) == ByteLane(HeldOf(op, a, b), j) < Pow2(8)
  {
    hide Pow2, Slice, Element, ByteLane, Low, HeldOf;
    ByteElement(op, a, b, j);
    ElementFits(op, Slice(a, j, 8), Slice(b, j, 8), 8);
    if !op.cls.WMul? {
      LowAll(ByteLane(HeldOf(op, a, b), j), 8);
    }
  }

  /** Byte results side by side. */
  lemma BytesJoined(op: Op, a: nat, b: nat, c: nat)
    requires IsPacked(op) && op.f1
    ensures var h := HeldOf(op, a, b);
      Result(h, c) == Concat4(ByteLane(h, 0), ByteLane(h, 1), ByteLane(h, 2), ByteLane(h, 3), OutBits(op))
    ensures forall j :: 0 <= j < 4 ==> ByteLane(HeldOf(op, a, b), j) < Pow2(OutBits(op))
  {
    hide Pow2, Slice, Element, ByteLane, HalfLane, Low, FirstTree, CorrOf, Align2, Widths, Bit, Join, Concat4;
    forall j | 0 <= j < 4
      ensures ByteLane(HeldOf(op, a, b), j) < Pow2(16)
      ensures !op.cls.WMul? ==> Low(ByteLane(HeldOf(op, a, b), j), 8) == ByteLane(HeldOf(op, a, b), j) < Pow2(8)
    {
      ByteLaneIs(op, a, b, j);
    }
  }

  lemma BytesCorrect(op: Op, a: nat, b: nat, c: nat, k: nat)
    requires IsPacked(op) && op.f1 && k < 4
    ensures Slice(Result(HeldOf(op, a, b), c), k, OutBits(op)) == Element(op, Slice(a, k, 8), Slice(b, k, 8), 8)
    ensures Result(HeldOf(op, a, b), c) < Pow2(ResultBits(op))
  {
    hide Pow2, Slice, Element, ByteLane, Result, HeldOf, Concat4;
    var h := HeldOf(op, a, b);
    BytesJoined(op, a, b, c);
    ByteLaneIs(op, a, b, k);
    ConcatSlices(ByteLane(h, 0), ByteLane(h, 1), ByteLane(h, 2), ByteLane(h, 3), OutBits(op));
    ConcatFits(ByteLane(h, 0), ByteLane(h, 1), ByteLane(h, 2), ByteLane(h, 3), OutBits(op));
  }

  lemma HalvesCorrect(op: Op, a: nat, b: nat, c: nat, k: nat)
    requires IsPacked(op) && !op.f1 && k < 2
    ensures Slice(Result(HeldOf(op, a, b), c), k, OutBits(op)) == Element(op, Slice(a, k, 16), Slice(b, k, 16), 16)
    ensures Result(HeldOf(op, a, b), c) < Pow2(ResultBits(op))
  {
    hide Pow2, Slice, Element, ByteLane, HalfLane, Low, FirstTree, CorrOf, Align2, Widths, Bit, Join;
    forall j | 0 <= j < 2
      ensures HalfLane(HeldOf(op, a, b), j) == Element(op, Slice(a, j, 16), Slice(b, j, 16), 16) < Pow2(32)
      ensures !op.cls.WMul? ==> Low(HalfLane(HeldOf(op, a, b), j), 16) == HalfLane(HeldOf(op, a, b), j) < Pow2(16)
    {
      HalfElement(op, a, b, j);
      ElementFits(op, Slice(a, j, 16), Slice(b, j, 16), 16);
      if !op.cls.WMul? {
        LowAll(HalfLane(HeldOf(op, a, b), j), 16);
      }
    }
    var h := HeldOf(op, a, b);
    ConcatSlices(HalfLane(h, 0), HalfLane(h, 1), HalfLane(h, 0), HalfLane(h, 0), OutBits(op));
    ConcatFits(HalfLane(h, 0), HalfLane(h, 1), HalfLane(h, 0), HalfLane(h, 0), OutBits(op));
  }

  /** Every packed multiply, widening multiply, addition, subtraction, saturating form, minimum and
      maximum, at 8 and at 16 bits, signed and unsigned: element k of the result is the exact element
      operation on elements k of the operands, and all but the widening products leave the upper result
      word zero. */
  lemma PackedCorrect(op: Op, a: nat, b: nat, c: nat, k: nat)
    requires IsPacked(op) && k < 32 / LaneBits(op)
    ensures var n := LaneBits(op);
      Slice(Result(HeldOf(op, a, b), c), k, OutBits(op)) == Element(op, Slice(a, k, n), Slice(b, k, n), n)
    ensures Result(HeldOf(op, a, b), c) < Pow2(ResultBits(op))
  {
    hide Pow2, Slice, Element, Result, HeldOf;
    if op.f1 {
      BytesCorrect(op, a, b, c, k);
    } else {
      HalvesCorrect(op, a, b, c, k);
    }
  }
}
