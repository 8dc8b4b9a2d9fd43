/** Every lane of the packed unit computes its element operation exactly: products, wrapping and
    saturating sums and differences, minimum and maximum. */
module LaneProof {
  import opened BitSlices
  import opened CarrySave
  import opened BaughWooley
  import opened WordArith
  import opened LaneModel

  function Clamp(x: int, lo: int, hi: int): int { if x < lo then lo else if x > hi then hi else x }
  function Min(x: int, y: int): int { if x < y then x else y }
  function Max(x: int, y: int): int { if x < y then y else x }

  /** The n-bit (for the widening product 2n-bit) result the instruction set asks for. */
  function Element(op: Op, x: nat, y: nat, n: nat): nat requires n > 0 {
    var u, v := Value(x, n, op.f0), Value(y, n, op.f0);
    match op.cls
    case WMul => Wrap(u * v, 2 * n)
    case Mul => if op.f2 then High(Wrap(u * v, 2 * n), n) else Wrap(u * v, n)
    case AddSub => Wrap(if op.f2 then u - v else u + v, n)
    case QAddSub =>
      var r := if op.f2 then u - v else u + v;
      Wrap(if op.f0 then Clamp(r, 0, Pow2(n) - 1) else Clamp(r, 0 - Pow2(n - 1), Pow2(n - 1) - 1), n)
    case Compare => Wrap(if op.f2 then Max(u, v) else Min(u, v), n)
    case _ => 0
  }

  // ---------------------------------------------------------------------------------------
  // Product lanes

  /** What the correction adds to a tile of width n. */
  function LaneCorr(n: nat, uns: bool): nat requires n > 0 { if uns then 0 else Pow2(n) + Pow2(2 * n - 1) }

  lemma LaneProduct(op: Op, x: nat, y: nat, t0: nat, t1: nat, n: nat)
    requires n > 1 && x < Pow2(n) && y < Pow2(n) && !UseOperands(op)
    requires t0 + t1 == TileValue(op.f0, x, y, n, n)
    ensures LaneSum(op, x, y, t0, t1, LaneCorr(n, op.f0), n) == Wrap(Value(x, n, op.f0) * Value(y, n, op.f0), 2 * n)
  {
    hide Pow2, Low, Value, TileValue, Wrap, Csa;
    var p, corr := Value(x, n, op.f0) * Value(y, n, op.f0), LaneCorr(n, op.f0);
    var z := Csa(t0, t1, corr, 2 * n);
    TileProduct(op.f0, x, y, n);
    TileFits(op.f0, x, y, n);
    CorrFits(n, op.f0);
    CsaSum(t0, t1, corr, 2 * n);
    LowIsWrap(z.s + z.c, 2 * n);
    var q: int := (if z.Total() == t0 + t1 + corr then 0 else -1) + (if op.f0 then 0 else 1);
    assert z.s + z.c == p + q * Pow2(2 * n);
    WrapShift(p, q, 2 * n);
  }

  lemma CorrFits(n: nat, uns: bool)
    requires n > 1
    ensures LaneCorr(n, uns) < Pow2(2 * n)
    ensures Bias(n, uns) + LaneCorr(n, uns) == if uns then 0 else Pow2(2 * n)
  {
    hide Pow2;
    Pow2Monotone(n + 1, 2 * n - 1);
    PowNext(n);
    PowNext(2 * n - 1);
  }

  // ---------------------------------------------------------------------------------------
  // Operand lanes

  lemma ValueRange(x: nat, n: nat, uns: bool)
    requires n > 0 && x < Pow2(n)
    ensures if uns then 0 <= Value(x, n, uns) < Pow2(n) else 0 - Pow2(n - 1) <= Value(x, n, uns) < Pow2(n - 1)
    ensures Wrap(Value(x, n, uns), n) == x
    ensures !uns ==> (Value(x, n, uns) < 0 <==> Bit(x, n - 1) == 1)
  {
    hide Pow2, Bit, Wrap;
    SignedRange(x, n);
    PowNext(n - 1);
    WrapNear(Value(x, n, uns), n);
  }

  lemma ExtendIsWrap(x: nat, n: nat, uns: bool)
    requires n > 0 && x < Pow2(n)
    ensures Extend(x, n, uns) == Wrap(Value(x, n, uns), 2 * n)
  {
    hide Pow2, Bit, Wrap, High, Low, Join;
    ValueRange(x, n, uns);
    Pow2Monotone(n, 2 * n);
    PowNext(n - 1);
    WrapNear(Value(x, n, uns), 2 * n);
    Pow2Add(n, n);
    var e := Extend(x, n, uns);
    if !uns && Bit(x, n - 1) == 1 {
      SlicesOfJoin(Pow2(n) - 1, x, n);
      SlicesAreDivMod(e, n);
      assert (Pow2(n) - 1) * Pow2(n) == Pow2(n) * Pow2(n) - Pow2(n);
    }
  }

  /** The shared adder's result stands for the exact sum or difference. */
  lemma OperandSum(op: Op, x: nat, y: nat, t0: nat, t1: nat, corr: nat, n: nat)
    requires n > 0 && x < Pow2(n) && y < Pow2(n) && UseOperands(op)
    ensures LaneSum(op, x, y, t0, t1, corr, n)
         == Wrap(if SubMode(op) then Value(x, n, op.f0) - Value(y, n, op.f0) else Value(x, n, op.f0) + Value(y, n, op.f0), 2 * n)
  {
    hide Pow2, Low, Value, Wrap, Extend, Csa;
    var u, v, k := Value(x, n, op.f0), Value(y, n, op.f0), 2 * n;
    ExtendIsWrap(x, n, op.f0);
    ExtendIsWrap(y, n, op.f0);
    if SubMode(op) {
      LowIsWrap(Wrap(u, k) + Invert(Wrap(v, k), k) + 1, k);
      WrapOfWrap(u, Pow2(k) - Wrap(v, k), k);
      var q := WrapWitness(v, k);
      assert u + Pow2(k) - Wrap(v, k) == u - v + (q + 1) * Pow2(k);
      WrapShift(u - v, q + 1, k);
    } else {
      LowIsWrap(Wrap(u, k) + Wrap(v, k), k);
      WrapOfWrap(u, Wrap(v, k), k);
      WrapOfWrap(v, u, k);
    }
  }

  /** The top two bits of an (n+1)-bit word. */
  lemma TopBits(r: nat, n: nat)
    requires n > 0 && r < Pow2(n + 1)
    ensures r == Bit(r, n) * Pow2(n) + Bit(r, n - 1) * Pow2(n - 1) + Low(r, n - 1)
    ensures Low(r, n) == Bit(r, n - 1) * Pow2(n - 1) + Low(r, n - 1)
  {
    hide Pow2, Low, Bit;
    LowAll(r, n + 1);
    LowNext(r, n);
    LowNext(r, n - 1);
  }

  lemma SaturateSigned(s: int, n: nat)
    requires n > 0 && 0 - Pow2(n) <= s < Pow2(n)
    ensures SatSigned(Wrap(s, n + 1), n) == Wrap(Clamp(s, 0 - Pow2(n - 1), Pow2(n - 1) - 1), n)
  {
    hide Pow2, Low, Bit, Wrap;
    PowNext(n);
    PowNext(n - 1);
    WrapNear(s, n + 1);
    TopBits(Wrap(s, n + 1), n);
    WrapNear(Clamp(s, 0 - Pow2(n - 1), Pow2(n - 1) - 1), n);
  }

  lemma SaturateUnsigned(s: int, n: nat, sub: bool)
    requires n > 0 && if sub then 0 - Pow2(n) < s < Pow2(n) else 0 <= s < 2 * Pow2(n) - 1
    ensures SatUnsigned(Wrap(s, n + 1), n, sub) == Wrap(Clamp(s, 0, Pow2(n) - 1), n)
  {
    hide Pow2, Low, Bit, Wrap;
    PowNext(n);
    PowNext(n - 1);
    WrapNear(s, n + 1);
    TopBits(Wrap(s, n + 1), n);
    WrapNear(Clamp(s, 0, Pow2(n) - 1), n);
  }

  /** Both comparators decide the order of the values. */
  lemma ComparePicks(x: nat, y: nat, uns: bool, sum: nat, n: nat)
    requires n > 0 && x < Pow2(n) && y < Pow2(n)
    requires Low(sum, n + 1) == Wrap(Value(x, n, uns) - Value(y, n, uns), n + 1)
    ensures Value(x, n, uns) < Value(y, n, uns)
       <==> if uns then Bit(sum, n) == 1 else SignedLess(Bit(x, n - 1), Bit(y, n - 1), Bit(sum, n - 1))
  {
    hide Pow2, Low, Bit, Wrap, Value, SignedLess;
    var u, v, r := Value(x, n, uns), Value(y, n, uns), Low(sum, n + 1);
    ValueRange(x, n, uns);
    ValueRange(y, n, uns);
    PowNext(n);
    PowNext(n - 1);
    WrapNear(u - v, n + 1);
    LowBits(sum, n);
    DifferenceBits(u - v, r, n);
    if !uns {
      SignedOrder(u, v, Bit(x, n - 1), Bit(y, n - 1), Bit(sum, n - 1), Pow2(n - 1));
    }
  }

  /** The sign and guard bits of a wrapped difference. */
  lemma DifferenceBits(s: int, r: nat, n: nat)
    requires n > 0 && 0 - Pow2(n) <= s < Pow2(n) && r == if s < 0 then s + Pow2(n + 1) else s
    ensures Bit(r, n) == 1 <==> s < 0
    ensures Bit(r, n - 1) == 1 <==> (s >= Pow2(n - 1) || 0 - Pow2(n - 1) <= s < 0)
  {
    hide Pow2, Low, Bit;
    PowNext(n);
    PowNext(n - 1);
    TopBits(r, n);
  }

  lemma SignedOrder(u: int, v: int, su: nat, sv: nat, sd: nat, h: nat)
    requires 0 - h <= u < h && 0 - h <= v < h && su <= 1 && sv <= 1 && sd <= 1
    requires (su == 1 <==> u < 0) && (sv == 1 <==> v < 0)
    requires sd == 1 <==> (u - v >= h || 0 - h <= u - v < 0)
    ensures SignedLess(su, sv, sd) <==> u < v
  {
  }

  lemma LowBits(sum: nat, n: nat)
    requires n > 0
    ensures Bit(Low(sum, n + 1), n) == Bit(sum, n) && Bit(Low(sum, n + 1), n - 1) == Bit(sum, n - 1)
  {
    hide Bit, Low;
    BitOfLow(sum, n + 1, n);
    BitOfLow(sum, n + 1, n - 1);
  }

  /** The lane's output, from operands or from the taps of its tile. */
  lemma LaneCorrect(op: Op, x: nat, y: nat, t0: nat, t1: nat, corr: nat, n: nat)
    requires n > 1 && x < Pow2(n) && y < Pow2(n)
    requires op.cls.Mul? || op.cls.WMul? ==> t0 + t1 == TileValue(op.f0, x, y, n, n) && corr == LaneCorr(n, op.f0)
    ensures LaneOut(op, x, y, t0, t1, corr, n) == Element(op, x, y, n)
  {
    hide Pow2, Low, High, Bit, Wrap, Value, LaneSum, TileValue, Clamp, SatSigned, SatUnsigned, SignedLess;
    var u, v := Value(x, n, op.f0), Value(y, n, op.f0);
    if op.cls.Mul? || op.cls.WMul? {
      LaneProduct(op, x, y, t0, t1, n);
      LowOfWrap(u * v, n, 2 * n);
    } else if UseOperands(op) {
      OperandLane(op, x, y, t0, t1, corr, n);
    }
  }

  lemma OperandLane(op: Op, x: nat, y: nat, t0: nat, t1: nat, corr: nat, n: nat)
    requires n > 0 && x < Pow2(n) && y < Pow2(n) && UseOperands(op)
    ensures LaneOut(op, x, y, t0, t1, corr, n) == Element(op, x, y, n)
  {
    hide Pow2, Low, High, Bit, Wrap, Value, LaneSum, TileValue, Clamp, SatSigned, SatUnsigned, SignedLess;
    var u, v := Value(x, n, op.f0), Value(y, n, op.f0);
    var s := if SubMode(op) then u - v else u + v;
    OperandSum(op, x, y, t0, t1, corr, n);
    LowOfWrap(s, n, 2 * n);
    LowOfWrap(s, n + 1, 2 * n);
    ValueRange(x, n, op.f0);
    ValueRange(y, n, op.f0);
    PowNext(n - 1);
    match op.cls
    case QAddSub =>
      if op.f0 {
        SaturateUnsigned(s, n, op.f2);
      } else {
        SaturateSigned(s, n);
      }
    case Compare =>
      ComparePicks(x, y, op.f0, LaneSum(op, x, y, t0, t1, corr, n), n);
    case _ =>
  }
}
