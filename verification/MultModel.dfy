/** The byte-split multiplier: 33-bit extended operands, eight narrow signed partial products, and the
    recombination. Every intermediate is written with its own width; vectors are signed numbers. */
module MultModel {
  import opened BitSlices
  import opened BaughWooley
  import opened WordArith
  import opened MulSpec
  import SimdModel
  import SimdTrees
  import SimdResults
  import LaneModel

  /** A value stored in a signed vector whose width has 2^width = m. */
  function Stored(x: int, m: nat): (r: int)
    requires m > 0
    ensures -(m as int) <= 2 * r < m
  {
    if 2 * (x % m) >= m then x % m - m else x % m
  }

  lemma SmallMod(x: nat, m: nat)
    requires x < m
    ensures x % m == x
  {
    var q := x / m;
    assert x == m * q + x % m;
    if q >= 1 {
      MulMonotone(1, q, m);
    }
  }

  lemma ModShift(x: int, k: int, m: nat)
    requires m > 0
    ensures (x + k * m) % m == x % m
  {
    var z := x + k * m;
    var d := z / m - x / m - k;
    assert z == m * (z / m) + z % m && x == m * (x / m) + x % m;
    assert d * m == x % m - z % m;
    if d > 0 {
      MulMonotone(1, d, m);
    } else if d < 0 {
      MulMonotone(d, -1, m);
    }
  }

  /** A value in the range of the vector is stored unchanged. */
  lemma StoredExact(x: int, m: nat)
    requires m > 0 && 0 - m <= 2 * x < m
    ensures Stored(x, m) == x
  {
    if x < 0 {
      ModShift(x, 1, m);
      SmallMod(x + m, m);
    } else {
      SmallMod(x, m);
    }
  }

  const M16: nat := 0x1_0000
  const M26: nat := 0x400_0000
  const M32: nat := 0x1_0000_0000
  const M34: nat := 0x4_0000_0000
  const M35: nat := 0x8_0000_0000
  const M64: nat := 0x1_0000_0000_0000_0000

  // ---------------------------------------------------------------------------------------
  // EXE stage

  /** The 33-bit extended operands. */
  function ExtA(op: MulOp, a: nat): int { if op.Mulhu? || 2 * a < M32 then a else a - M32 }
  function ExtB(op: MulOp, b: nat): int { if op.Mulhu? || op.Mulhsu? || 2 * b < M32 then b else b - M32 }

  function HighHalf(x: int): int { x / M16 }
  function LowHalf(x: int): int { x % M16 }

  datatype Partials = Partials(e0l: int, e0h: int, e1l: int, e1h: int, e2l: int, e2h: int, e3l: int, e3h: int)

  /** One half product as two 26-bit products with the low and the high byte of the b-side half. */
  function LowByte(x: int, y: int): int { Stored(x * (y % 256), M26) }
  function HighByte(x: int, y: int): int { Stored(x * (y / 256), M26) }

  function PartialsOf(op: MulOp, a: nat, b: nat): Partials {
    var x, y := ExtA(op, a), ExtB(op, b);
    var al, ah, bl, bh := LowHalf(x), HighHalf(x), LowHalf(y), HighHalf(y);
    Partials(LowByte(al, bl), HighByte(al, bl), LowByte(ah, bl), HighByte(ah, bl),
             LowByte(al, bh), HighByte(al, bh), LowByte(ah, bh), HighByte(ah, bh))
  }

  // ---------------------------------------------------------------------------------------
  // MEM stage

  function Combined(l: int, h: int): int { Stored(l + h * 256, M34) }

  function Recombined(pp: Partials): nat {
    var p0, p1 := Combined(pp.e0l, pp.e0h), Combined(pp.e1l, pp.e1h);
    var p2, p3 := Combined(pp.e2l, pp.e2h), Combined(pp.e3l, pp.e3h);
    var mid := Stored(p1 + p2, M35);
    ((p3 % M32) * M32 + p0 % M32 + mid * M16) % M64
  }

  function Output(op: MulOp, prod: nat): nat { if op.Mul? then prod % M32 else prod / M32 }

  // ---------------------------------------------------------------------------------------

  /** No 26-bit product and no 34-bit recombination loses anything: each half product is exact. */
  lemma HalfExact(x: int, y: int)
    requires -0x8000 <= x <= 0xFFFF && -0x8000 <= y <= 0xFFFF
    ensures LowByte(x, y) == x * (y % 256) && HighByte(x, y) == x * (y / 256)
    ensures Combined(LowByte(x, y), HighByte(x, y)) == x * y
    ensures -0x8000_0000 <= x * y <= 0xFFFE_0001
  {
    hide Stored;
    var l, h := y % 256, y / 256;
    NarrowRange(x, l);
    NarrowRange(x, h);
    StoredExact(x * l, M26);
    StoredExact(x * h, M26);
    ByteSplit(x, y, h, l);
    WideRange(x, y);
    StoredExact(x * y, M34);
  }

  lemma ByteSplit(x: int, y: int, h: int, l: int)
    requires y == h * 256 + l
    ensures x * y == (x * h) * 256 + x * l
  {
  }

  lemma NarrowRange(x: int, y: int)
    requires -0x8000 <= x <= 0xFFFF && -128 <= y <= 255
    ensures -0x80_0000 <= x * y <= 0xFF_FFFF
  {
    Corners(x, y, 0x8000, 0xFFFF, 128, 255);
  }

  lemma WideRange(x: int, y: int)
    requires -0x8000 <= x <= 0xFFFF && -0x8000 <= y <= 0xFFFF
    ensures -0x8000_0000 <= x * y <= 0xFFFE_0001
  {
    Corners(x, y, 0x8000, 0xFFFF, 0x8000, 0xFFFF);
  }

  lemma MulRange(x: nat, y: nat, hx: nat, hy: nat)
    requires x <= hx && y <= hy
    ensures 0 <= x * y <= hx * hy
  {
    MulMonotone(x, hx, y);
    MulMonotone(y, hy, hx);
  }

  lemma Corners(x: int, y: int, lx: nat, hx: nat, ly: nat, hy: nat)
    requires 0 - lx <= x <= hx && 0 - ly <= y <= hy
    ensures x * y <= hx * hy || x * y <= lx * ly
    ensures 0 - lx * hy <= x * y || 0 - hx * ly <= x * y
  {
    if x >= 0 && y >= 0 {
      MulRange(x, y, hx, hy);
    } else if x >= 0 {
      MulRange(x, 0 - y, hx, ly);
      assert x * (0 - y) == 0 - x * y;
    } else if y >= 0 {
      MulRange(0 - x, y, lx, hy);
      assert (0 - x) * y == 0 - x * y;
    } else {
      MulRange(0 - x, 0 - y, lx, ly);
      assert (0 - x) * (0 - y) == x * y;
    }
  }

  lemma Quarters(x: int, y: int)
    ensures x * y == (HighHalf(x) * HighHalf(y)) * M32 + (HighHalf(x) * LowHalf(y) + LowHalf(x) * HighHalf(y)) * M16
                   + LowHalf(x) * LowHalf(y)
  {
    var xh, xl, yh, yl := HighHalf(x), LowHalf(x), HighHalf(y), LowHalf(y);
    assert x == xh * M16 + xl && y == yh * M16 + yl;
    Expand(xh, xl, yh, yl, M16);
  }

  lemma Expand(xh: int, xl: int, yh: int, yl: int, m: int)
    ensures (xh * m + xl) * (yh * m + yl) == (xh * yh) * (m * m) + (xh * yl + xl * yh) * m + xl * yl
  {
    assert (xh * m + xl) * (yh * m + yl) == (xh * m) * (yh * m) + (xh * m) * yl + xl * (yh * m) + xl * yl;
    assert (xh * m) * (yh * m) == (xh * yh) * (m * m);
    assert (xh * m) * yl == (xh * yl) * m && xl * (yh * m) == (xl * yh) * m;
  }

  /** The recombination is the exact product modulo 2^64. */
  lemma RecombinedExact(op: MulOp, a: nat, b: nat)
    requires a < M32 && b < M32
    ensures Recombined(PartialsOf(op, a, b)) == (ExtA(op, a) * ExtB(op, b)) % M64
  {
    var x, y := ExtA(op, a), ExtB(op, b);
    var xl, xh, yl, yh := LowHalf(x), HighHalf(x), LowHalf(y), HighHalf(y);
    Quarters(x, y);
    HalfExact(xl, yl);
    HalfExact(xh, yl);
    HalfExact(xl, yh);
    HalfExact(xh, yh);
    assert 0 <= xl * yl;
    Recombine(xl * yl, xh * yl, xl * yh, xh * yh);
  }

  lemma Recombine(p0: int, p1: int, p2: int, p3: int)
    requires 0 <= p0 < M32 && -0x8000_0000 <= p1 <= 0xFFFE_0001 && -0x8000_0000 <= p2 <= 0xFFFE_0001
    ensures ((p3 % M32) * M32 + p0 % M32 + Stored(p1 + p2, M35) * M16) % M64 == (p3 * M32 + (p1 + p2) * M16 + p0) % M64
  {
    hide Stored;
    StoredExact(p1 + p2, M35);
    var q, r := p3 / M32, p3 % M32;
    assert p3 == q * M32 + r && p0 % M32 == p0;
    ModShift(r * M32 + p0 + (p1 + p2) * M16, q, M64);
  }

  lemma Extended(op: MulOp, a: nat, b: nat)
    requires a < M32 && b < M32
    ensures ExtA(op, a) == Value(a, 32, op.Mulhu?) && ExtB(op, b) == Value(b, 32, op.Mulhu? || op.Mulhsu?)
  {
    hide High, Pow2, Low;
    PowerValues();
    LowNext(a, 31);
    LowNext(b, 31);
    LowAll(a, 32);
    LowAll(b, 32);
  }

  /** The byte-split datapath answers all four multiply instructions exactly. */
  lemma SplitCorrect(op: MulOp, a: nat, b: nat)
    requires a < M32 && b < M32
    ensures Output(op, Recombined(PartialsOf(op, a, b))) == Answer(op, a, b)
  {
    hide High, Pow2, Low, Value, Recombined, PartialsOf, ExtA, ExtB;
    RecombinedExact(op, a, b);
    Extended(op, a, b);
    PowerValues();
    var p := Wrap(Product(op, a, b), 64);
    SlicesAreDivMod(p, 32);
    if op.Mul? {
      LowOfWrap(Product(op, a, b), 32, 64);
    }
  }

  /** The inferred multiplier: both operands extended to 64 bits, one 64-bit product. */
  function Inferred(op: MulOp, a: nat, b: nat): nat
    requires a < M32 && b < M32
  {
    var x := if op.Mulhu? then a else if 2 * a >= M32 then a + (M32 - 1) * M32 else a;
    var y := if op.Mulhu? || op.Mulhsu? then b else if 2 * b >= M32 then b + (M32 - 1) * M32 else b;
    Output(op, (x * y) % M64)
  }

  lemma ModProduct(x: int, y: int, p: int, q: int, m: nat)
    requires m > 0
    ensures ((x + p * m) * (y + q * m)) % m == (x * y) % m
  {
    Spread(x, y, p, q, m);
    ModShift(x * y, x * q + p * y + p * q * m, m);
  }

  lemma Spread(x: int, y: int, p: int, q: int, m: int)
    ensures (x + p * m) * (y + q * m) == x * y + (x * q + p * y + p * q * m) * m
  {
    var u, v := p * m, q * m;
    assert (x + u) * (y + v) == x * y + x * v + u * y + u * v;
    assert x * v == (x * q) * m && u * y == (p * y) * m && u * v == (p * q * m) * m;
  }

  lemma InferredCorrect(op: MulOp, a: nat, b: nat)
    requires a < M32 && b < M32
    ensures Inferred(op, a, b) == Answer(op, a, b)
  {
    hide High, Pow2, Low, Value, Recombined, PartialsOf, Answer;
    SplitCorrect(op, a, b);
    RecombinedExact(op, a, b);
    ModProduct(ExtA(op, a), ExtB(op, b), if ExtA(op, a) < 0 then 1 else 0, if ExtB(op, b) < 0 then 1 else 0, M64);
  }

  /** The two multipliers of the core agree on every instruction and all operands. */
  lemma MultipliersAgree(op: LaneModel.Op, a: nat, b: nat, c: nat)
    requires op.cls.Rv32m? && !op.f2 && a < M32 && b < M32
    ensures var m := SimdResults.MulOpOf(op);
      Output(m, Recombined(PartialsOf(m, a, b))) == SimdModel.Result(SimdTrees.HeldOf(op, a, b), c) == Inferred(m, a, b)
  {
    hide Pow2, Value, Recombined, PartialsOf, Answer, SimdModel.Result, SimdTrees.HeldOf, Inferred, Output;
    PowerValues();
    SplitCorrect(SimdResults.MulOpOf(op), a, b);
    InferredCorrect(SimdResults.MulOpOf(op), a, b);
    SimdResults.MultiplyCorrect(op, a, b, c);
  }
}
