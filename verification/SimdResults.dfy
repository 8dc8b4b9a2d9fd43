/** The results of the multiply and dot-product unit: exact products for the four multiply
    instructions, exact dot products with accumulation, exact packed lanes. */
module SimdResults {
  import opened BitSlices
  import opened CarrySave
  import opened BaughWooley
  import opened WordArith
  import opened LaneModel
  import opened LaneProof
  import opened SimdModel
  import opened SimdTiles
  import opened SimdTrees
  import MulSpec

  // ---------------------------------------------------------------------------------------
  // Reduction

  /** All tiles of the matrix, in place. */
  function Rowed(op: Op, a: nat, b: nat): nat { SumRows(IsUnsigned(op), a, b, Size(op), 0, 32) }

  lemma Reduced(op: Op, a: nat, b: nat)
    requires CorrOf(op) < Pow2(WD)
    ensures TreeSum(HeldOf(op, a, b)) == Wrap(Rowed(op, a, b) + CorrOf(op), WD)
    ensures exists q: int :: SumBw(HeldOf(op, a, b)).Total() == Rowed(op, a, b) + CorrOf(op) + q * Pow2(WD)
    ensures SumBw(HeldOf(op, a, b)).s < Pow2(WD) && SumBw(HeldOf(op, a, b)).c < Pow2(WD)
  {
    hide Pow2, Low, Wrap, FinalTree, Csa, Size, SumRows, IsUnsigned, FirstTree, CorrOf, Align2, Bit, Widths;
    var h, v := HeldOf(op, a, b), Rowed(op, a, b) + CorrOf(op);
    FinalLevel(op, a, b);
    var o := FinalTree(h).o;
    CsaSum(o.s, o.c, h.corr, WD);
    var q: int := if SumBw(h).Total() == v then 0 else -1;
    assert SumBw(h).Total() == v + q * Pow2(WD);
    LowIsWrap(SumBw(h).Total(), WD);
    WrapShift(v, q, WD);
  }

  // ---------------------------------------------------------------------------------------
  // Multiply instructions

  function MulOpOf(op: Op): MulSpec.MulOp {
    if !op.f1 then (if op.f0 then MulSpec.Mulh else MulSpec.Mul) else (if op.f0 then MulSpec.Mulhu else MulSpec.Mulhsu)
  }

  lemma WholeSlice(x: nat)
    requires x < Pow2(W)
    ensures Slice(x, 0, W) == x
  {
    hide Pow2, Low;
    LowAll(x, W);
  }

  lemma Rv32mSize(op: Op)
    requires op.cls.Rv32m?
    ensures Size(op) == W && CorrOf(op) == LaneCorr(W, IsUnsigned(op)) < Pow2(WD)
  {
    hide Pow2;
    CorrFits(W, IsUnsigned(op));
  }

  /** The plain array delivers the 64-bit product, signed or unsigned on both sides. */
  lemma ArrayProduct(op: Op, a: nat, b: nat)
    requires op.cls.Rv32m? && a < Pow2(W) && b < Pow2(W)
    ensures CorrOf(op) < Pow2(WD)
    ensures Rowed(op, a, b) + CorrOf(op)
         == Value(a, W, IsUnsigned(op)) * Value(b, W, IsUnsigned(op)) + (if IsUnsigned(op) then 0 else Pow2(WD))
  {
    hide Pow2, Low, Wrap, Size, SumRows, IsUnsigned, CorrOf, Value, Slice, DotValue;
    var uns := IsUnsigned(op);
    Rv32mSize(op);
    CorrFits(W, uns);
    RowsAreDot(uns, a, b, W, 1);
    OneElement(uns, a, b, W);
    WholeSlice(a);
    WholeSlice(b);
  }

  lemma OneElement(uns: bool, a: nat, b: nat, n: nat)
    requires n > 0
    ensures DotValue(uns, a, b, n, 1) == Value(Slice(a, 0, n), n, uns) * Value(Slice(b, 0, n), n, uns)
  {
    hide Value, Slice;
    assert DotValue(uns, a, b, n, 0) == 0;
  }

  /** MUL, MULH, MULHSU and MULHU deliver the word the ISA asks for. */
  lemma MultiplyCorrect(op: Op, a: nat, b: nat, c: nat)
    requires op.cls.Rv32m? && !op.f2 && a < Pow2(W) && b < Pow2(W)
    ensures Result(HeldOf(op, a, b), c) == MulSpec.Answer(MulOpOf(op), a, b)
  {
    hide Pow2, Low, Wrap, High, SumRows, CorrOf, Value, TreeSum, MulHsu, Rowed, Size, SumBw, FirstTree, Widths, Align2, Bit;
    var h, uns := HeldOf(op, a, b), IsUnsigned(op);
    var p := Value(a, W, uns) * Value(b, W, uns);
    ArrayProduct(op, a, b);
    Reduced(op, a, b);
    if !uns {
      WrapShift(p, 1, WD);
    }
    assert TreeSum(h) == Wrap(p, WD);
    LowOfWrap(p, W, WD);
    if op.f1 && !op.f0 {
      assert op == Op(Rv32m, false, true, false);
      MixedProduct(op, a, b);
      PlainValue(b);
    } else {
      assert MulSpec.Product(MulOpOf(op), a, b) == p;
    }
  }

  /** Adding a once more above bit 32 turns the signed reading of b into the unsigned one. */
  lemma MixedSum(h: Held, x: int, b: nat, q: int, v: int)
    requires h.a < Pow2(W) && b < Pow2(W) && x == Value(h.a, W, false) && Bit(b, W - 1) == 1
    requires SumBw(h).s < Pow2(WD) && SumBw(h).c < Pow2(WD)
    requires v == x * Value(b, W, false) + Pow2(WD) && SumBw(h).Total() == v + q * Pow2(WD)
    ensures var t := Csa(SumBw(h).s, SumBw(h).c, Join(h.a, 0, W), WD); Low(t.Total(), WD) == Wrap(x * b, WD)
  {
    hide Pow2, Low, Wrap, High, SumBw, Join, Csa, Bit;
    ShiftedOperand(h.a);
    var z := Join(h.a, 0, W);
    CsaSum(SumBw(h).s, SumBw(h).c, z, WD);
    var t := Csa(SumBw(h).s, SumBw(h).c, z, WD);
    var q2: int := if t.Total() == SumBw(h).Total() + z then 0 else -1;
    var s: int := if Bit(h.a, W - 1) == 1 then 1 else 0;
    Pow2Add(W, W);
    MixedTotal(x, Value(b, W, false), h.a, b, s, q, q2, Pow2(W), Pow2(WD), SumBw(h).Total(), t.Total());
    LowIsWrap(t.Total(), WD);
    WrapShift(x * b, q + q2 + 1 + s, WD);
  }

  /** MULHSU: the high word of the signed times unsigned product. */
  lemma MixedProduct(op: Op, a: nat, b: nat)
    requires op == Op(Rv32m, false, true, false) && a < Pow2(W) && b < Pow2(W)
    ensures MulHsu(HeldOf(op, a, b)) == High(Wrap(Value(a, W, false) * b, WD), W)
  {
    hide Pow2, Low, Wrap, High, SumRows, CorrOf, Rowed, Size, SumBw, Join, Csa, TreeSum, FirstTree, Widths, Align2, Bit, Signed;
    var h := HeldOf(op, a, b);
    var x := Value(a, W, false);
    ArrayProduct(op, a, b);
    Reduced(op, a, b);
    if h.bSign {
      var q: int :| SumBw(h).Total() == Rowed(op, a, b) + CorrOf(op) + q * Pow2(WD);
      MixedSum(h, x, b, q, Rowed(op, a, b) + CorrOf(op));
    } else {
      PositiveValue(b);
      WrapShift(x * b, 1, WD);
    }
  }

  lemma PositiveValue(b: nat)
    requires Bit(b, W - 1) != 1
    ensures Value(b, W, false) == b
  {
    hide Bit, Pow2;
  }

  lemma MixedTotal(x: int, y: int, a: int, b: int, s: int, q: int, q2: int, m: int, mm: int, t: int, t2: int)
    requires x == a - s * m && b == y + m && mm == m * m
    requires t == x * y + mm + q * mm && t2 == t + a * m + q2 * mm
    ensures t2 == x * b + (q + q2 + 1 + s) * mm
  {
    assert a * m == x * m + s * mm by { assert (s * m) * m == s * (m * m); }
    assert x * b == x * y + x * m;
    assert (q + q2 + 1 + s) * mm == q * mm + q2 * mm + mm + s * mm;
  }

  lemma PlainValue(b: nat)
    ensures Value(b, W, true) == b
  {
  }

  lemma ShiftedOperand(a: nat)
    requires a < Pow2(W)
    ensures Join(a, 0, W) == a * Pow2(W) < Pow2(WD)
  {
    hide Pow2, Join, Low, High;
    JoinBound(a, 0, W);
    SlicesOfJoin(a, 0, W);
    SlicesAreDivMod(Join(a, 0, W), W);
    Pow2Add(W, W);
    MulMonotone(a + 1, Pow2(W), Pow2(W));
  }

  // ---------------------------------------------------------------------------------------
  // Dot products

  /** Width of the field a signed dot product is repaired in. */
  function FieldWidth(n: nat): nat { if n == 16 then 32 else if n == 8 then 17 else if n == 4 then 10 else 7 }

  lemma DotConstants(op: Op)
    requires op.cls.Dot?
    ensures var n := Size(op);
      && (n == 16 || n == 8 || n == 4 || n == 2) && n * (Elements(op)) == 32
      && IsUnsigned(op) == op.f0 && CorrOf(op) < Pow2(WD)
      && (Elements(op)) * Bias(n, op.f0) + CorrOf(op) == (if op.f0 then 0 else Pow2(FieldWidth(n)))
      && (Elements(op)) * (Pow2(n - 1) * Pow2(n - 1)) == Pow2(FieldWidth(n) - 1)
      && FieldWidth(n) == if op.f2 then (if op.f1 then DOT2_W else DOT4_W) else if op.f1 then DOT8_W else 32
  {
    hide Pow2;
    PowerValues();
  }

  /** The sum of the products of the elements stays inside its field, up to the one sum that equals
      the field's sign weight. */
  lemma {:induction false} DotRange(a: nat, b: nat, n: nat, t: nat)
    requires n > 0
    ensures var h := Pow2(n - 1); 0 - t * (h * h) <= DotValue(false, a, b, n, t) <= t * (h * h)
  {
    hide Pow2, Value, Slice;
    if t > 0 {
      DotRange(a, b, n, t - 1);
      var h, x, y := Pow2(n - 1), Slice(a, t - 1, n), Slice(b, t - 1, n);
      SliceFits(a, t - 1, n);
      SliceFits(b, t - 1, n);
      ValueRange(x, n, false);
      ValueRange(y, n, false);
      ProductRange(Value(x, n, false), Value(y, n, false), h);
      assert t * (h * h) == (t - 1) * (h * h) + h * h;
    }
  }

  /** The two-bit test recovers the sum from its biased field: also when all elements are minimal and
      the sum is 2^(width - 1), which the field cannot hold as a signed number. */
  lemma RepairCorrect(s: int, width: nat)
    requires 0 < width < W && 0 - Pow2(width - 1) <= s <= Pow2(width - 1)
    ensures Repair(Pow2(width) + s, width) == Wrap(s, W)
  {
    hide Pow2, Low, High, Bit, Wrap, Join;
    var r: nat := Pow2(width) + s by { PowNext(width - 1); }
    FieldBits(s, width);
    Pow2Monotone(width, W);
    Pow2Add(W - width, width);
    WrapNear(s, W);
    var hi := if s < 0 then Pow2(W - width) - 1 else 0;
    SlicesOfJoin(hi, Low(r, width), width);
    SlicesAreDivMod(Join(hi, Low(r, width), width), width);
    JoinOfLow(hi, r, width);
    SignFill(Pow2(W - width), Pow2(width));
  }

  lemma SignFill(f: nat, p: nat)
    requires f > 0
    ensures (f - 1) * p == f * p - p
  {
  }

  lemma FieldBits(s: int, width: nat)
    requires 0 < width && 0 - Pow2(width - 1) <= s <= Pow2(width - 1)
    ensures Pow2(width) + s >= 0
    ensures Bit(Pow2(width) + s, width) == 1 <==> s >= 0
    ensures Bit(Pow2(width) + s, width - 1) == 1 <==> (s < 0 || s == Pow2(width - 1))
    ensures Low(Pow2(width) + s, width) == if s < 0 then Pow2(width) + s else s
  {
    hide Pow2, Low, High, Bit;
    PowNext(width - 1);
    PowNext(width);
    TopBits(Pow2(width) + s, width);
  }

  lemma {:induction false} JoinOfLow(hi: nat, r: nat, k: nat)
    ensures Join(hi, Low(r, k), k) == Join(hi, r, k)
  {
    if k > 0 {
      JoinOfLow(hi, r / 2, k - 1);
    }
  }

  /** Before accumulation: the dot product, wrapped to a word. */
  lemma DotInput(op: Op, a: nat, b: nat)
    requires op.cls.Dot?
    ensures DotIn(HeldOf(op, a, b)) == Wrap(DotValue(op.f0, a, b, Size(op), Elements(op)), W)
  {
    hide Pow2, Low, High, Bit, Wrap, SumRows, CorrOf, TreeSum, Rowed, Size, Elements, SumBw, FirstTree, Widths, Align2, DotValue, Repair, Bias;
    var h, n := HeldOf(op, a, b), Size(op);
    var t := Elements(op);
    var d := DotValue(op.f0, a, b, n, t);
    DotConstants(op);
    RowsAreDot(op.f0, a, b, n, t);
    assert Rowed(op, a, b) + CorrOf(op) == d + (if op.f0 then 0 else Pow2(FieldWidth(n))) by { UnfoldRowed(op, a, b); }
    Reduced(op, a, b);
    LowOfWrap(Rowed(op, a, b) + CorrOf(op), W, WD);
    if !op.f0 {
      DotRange(a, b, n, t);
      SignedField(d, FieldWidth(n));
    }
  }

  lemma UnfoldRowed(op: Op, a: nat, b: nat)
    ensures Rowed(op, a, b) == SumRows(IsUnsigned(op), a, b, Size(op), 0, 32)
  {
  }

  lemma SignedField(d: int, width: nat)
    requires 0 < width <= W && 0 - Pow2(width - 1) <= d <= Pow2(width - 1)
    ensures Wrap(Pow2(width) + d, W) == if width == W then Wrap(d, W) else Pow2(width) + d
    ensures width < W ==> Repair(Wrap(Pow2(width) + d, W), width) == Wrap(d, W)
  {
    hide Pow2, Wrap, Repair;
    if width == W {
      WrapShift(d, 1, W);
    } else {
      PowNext(width - 1);
      Pow2Monotone(width + 1, W);
      PowNext(width);
      WrapNear(Pow2(width) + d, W);
      RepairCorrect(d, width);
    }
  }

  /** DOT16, DOT8, DOT4 and DOT2, signed and unsigned: the accumulator plus the sum of the products
      of all elements, modulo 2^32. */
  lemma DotCorrect(op: Op, a: nat, b: nat, c: nat)
    requires op.cls.Dot?
    ensures Result(HeldOf(op, a, b), c) == Wrap(c + DotValue(op.f0, a, b, Size(op), Elements(op)), W)
  {
    hide Pow2, Low, Wrap, DotIn, Size, Elements, FirstTree, Widths, Align2, Bit, CorrOf, DotValue;
    var d := DotValue(op.f0, a, b, Size(op), Elements(op));
    DotInput(op, a, b);
    LowIsWrap(Wrap(d, W) + c, W);
    WrapOfWrap(d, c, W);
  }
}
