/** The multiply and dot-product unit: element-width decode, masked partial products, the two tree
    levels with their re-alignment shifts, and the back end. Words are 32 bits, accumulators 64. */
module SimdModel {
  import opened BitSlices
  import opened CarrySave
  import opened BaughWooley
  import opened LaneModel

  const W: nat := 32
  const WD: nat := 64

  // ---------------------------------------------------------------------------------------
  // Control decode (class is op[6:3]; f2, f1, f0 are op[2:0])

  /** One-hot element width. */
  datatype Ew = Ew(b32: bool, b16: bool, b8: bool, b4: bool, b2: bool)

  predicate IsSimd(op: Op) { !op.cls.Rv32m? }
  predicate IsDot(op: Op) { op.cls.Dot? }

  function Widths(op: Op): Ew {
    var b2 := IsDot(op) && op.f2 && op.f1;
    var b4 := IsDot(op) && op.f2 && !op.f1;
    Ew(op.cls.Rv32m?, IsSimd(op) && !op.f1 && !b4, IsSimd(op) && op.f1 && !b2, b4, b2)
  }

  /** MULHU, or the unsigned flag of a SIMD operation. */
  predicate IsUnsigned(op: Op) { if op.cls.Rv32m? then !op.f2 && op.f1 && op.f0 else op.f0 }

  /** Alignment enables, from the encoding {b16, b8, b4, b2} read as a number. */
  function AlignCode(w: Ew): nat {
    (if w.b16 then 8 else 0) + (if w.b8 then 4 else 0) + (if w.b4 then 2 else 0) + (if w.b2 then 1 else 0)
  }
  function Align1(w: Ew): Align {
    var code := AlignCode(w);
    Align(code == 1, 0 < code <= 2, 2 * 2, 4 * 2)
  }
  function Align2(w: Ew): Align {
    var code := AlignCode(w);
    Align(0 < code <= 4, 0 < code <= 8, 8 * 2, 16 * 2)
  }

  // ---------------------------------------------------------------------------------------
  // Partial products

  function SignMask(w: Ew, uns: bool): nat {
    if uns then 0
    else if w.b2 then 0xAAAA_AAAA
    else if w.b4 then 0x8888_8888
    else if w.b8 then 0x8080_8080
    else if w.b16 then 0x8000_8000
    else if w.b32 then 0x8000_0000
    else 0
  }

  /** Row and column lie in the same diagonal tile. */
  predicate InTile(w: Ew, row: nat, col: nat) {
    if w.b32 then true
    else if w.b16 then row / 16 == col / 16
    else if w.b8 then row / 8 == col / 8
    else if w.b4 then row / 4 == col / 4
    else if w.b2 then row / 2 == col / 2
    else false
  }

  function Pp(w: Ew, uns: bool, a: nat, b: nat, row: nat, col: nat): nat {
    var y := Bit(b, row) * Bit(a, col);
    var flip := Bit(SignMask(w, uns), row) != Bit(SignMask(w, uns), col);
    if !InTile(w, row, col) then 0 else if flip then 1 - y else y
  }

  /** The masked row as a word, summed over its first cols columns. */
  function PpRow(w: Ew, uns: bool, a: nat, b: nat, row: nat, cols: nat): nat {
    if cols == 0 then 0 else PpRow(w, uns, a, b, row, cols - 1) + Pp(w, uns, a, b, row, cols - 1) * Pow2(cols - 1)
  }

  /** Each row shifted into place in the double-wide view. */
  function Ppv(w: Ew, uns: bool, a: nat, b: nat): (rows: seq<nat>)
    ensures |rows| == W
  {
    seq(W, r requires r >= 0 => PpRow(w, uns, a, b, r, W) * Pow2(r))
  }

  /** Correction bits for the signed forms. */
  function Corr(w: Ew, uns: bool, dot: bool): nat {
    if uns then 0
    else if w.b32 then Pow2(32) + Pow2(63)
    else if w.b16 then (if dot then Pow2(17) else Pow2(16) + Pow2(31))
    else if w.b8 then (if dot then Pow2(10) else Pow2(8) + Pow2(15))
    else if w.b4 then Pow2(7)
    else if w.b2 then Pow2(6)
    else 0
  }

  // ---------------------------------------------------------------------------------------
  // EXE stage: four trees of eight rows

  function Rows(op: Op, a: nat, b: nat): (rows: seq<nat>)
    ensures |rows| == W
  {
    Ppv(Widths(op), IsUnsigned(op), a, b)
  }

  function FirstTree(op: Op, a: nat, b: nat, g: nat): Pair
    requires g < 4
  {
    Tree8(Rows(op, a, b)[8 * g..8 * g + 8], Align1(Widths(op)), WD).o
  }

  function CorrOf(op: Op): nat { Corr(Widths(op), IsUnsigned(op), IsDot(op)) }

  // ---------------------------------------------------------------------------------------
  // MEM stage

  /** What the MEM stage holds: tree outputs, correction, final alignment, opcode and operands. */
  datatype Held = Held(
    en: bool, op: Op, al: Align, t0: Pair, t1: Pair, t2: Pair, t3: Pair, corr: nat, a: nat, b: nat, bSign: bool)

  function FinalInputs(h: Held): (a: seq<nat>)
    ensures |a| == 8
  {
    [h.t0.s, h.t0.c, h.t1.s, h.t1.c, h.t2.s, h.t2.c, h.t3.s, h.t3.c]
  }

  function FinalTree(h: Held): TreeOut { Tree8(FinalInputs(h), h.al, WD) }

  function SumBw(h: Held): Pair { Csa(FinalTree(h).o.s, FinalTree(h).o.c, h.corr, WD) }
  function TreeSum(h: Held): nat { Add(SumBw(h).s, SumBw(h).c, false, WD) }

  /** Signed times unsigned: the high word after a is added once more above bit 32. */
  function MulHsu(h: Held): nat {
    var t := Csa(SumBw(h).s, SumBw(h).c, Join(h.a, 0, W), WD);
    if h.bSign then High(Add(t.s, t.c, false, WD), W) else High(TreeSum(h), W)
  }

  function MulRes(h: Held): nat {
    if h.op.f2 then 0
    else if !h.op.f1 && !h.op.f0 then Low(TreeSum(h), W)
    else if !h.op.f1 then High(TreeSum(h), W)
    else if !h.op.f0 then MulHsu(h)
    else High(TreeSum(h), W)
  }

  /** Sign repair of a width-bit dot product: the two-bit test above it tells a negative sum from the
      one sum that overflows the field. */
  function Repair(r: nat, width: nat): nat
    requires 0 < width <= W
  {
    var msb := if Bit(r, width) == 1 && Bit(r, width - 1) == 1 then 0 else Bit(r, width - 1);
    Join(if msb == 1 then Pow2(W - width) - 1 else 0, r, width)
  }

  const DOT8_W: nat := 17
  const DOT4_W: nat := 10
  const DOT2_W: nat := 7

  function DotIn(h: Held): nat {
    var r := Low(TreeSum(h), W);
    if h.op.f0 then r
    else if !h.op.f2 && !h.op.f1 then r
    else if !h.op.f2 then Repair(r, DOT8_W)
    else if !h.op.f1 then Repair(r, DOT4_W)
    else Repair(r, DOT2_W)
  }

  function DotOut(h: Held, c: nat): nat { Add(DotIn(h), c, false, W) }

  // Lanes: slice k of a vector of n-bit elements
  function Slice(x: nat, k: nat, n: nat): nat { Low(High(x, n * k), n) }

  function ByteLane(h: Held, k: nat): nat
    requires k < 4
  {
    var t := if k == 0 then h.t0 else if k == 1 then h.t1 else if k == 2 then h.t2 else h.t3;
    LaneOut(h.op, Slice(h.a, k, 8), Slice(h.b, k, 8), Slice(t.s, k, 16), Slice(t.c, k, 16), Slice(h.corr, 0, 16), 8)
  }

  function HalfLane(h: Held, k: nat): nat
    requires k < 2
  {
    var t := if k == 0 then FinalTree(h).right else FinalTree(h).left;
    LaneOut(h.op, Slice(h.a, k, 16), Slice(h.b, k, 16), Slice(t.s, k, 32), Slice(t.c, k, 32), Slice(h.corr, 0, 32), 16)
  }

  /** Concatenation of n-bit lanes, lane 0 lowest. */
  function Concat4(x0: nat, x1: nat, x2: nat, x3: nat, n: nat): nat {
    Join(Join(Join(x3, x2, n), x1, n), x0, n)
  }
  function Concat2(x0: nat, x1: nat, n: nat): nat { Join(x1, x0, n) }

  /** Narrow results keep the low half of each lane, the widening multiply keeps all of it. */
  function Narrow(h: Held): nat {
    if h.op.f1 then
      Concat4(Low(ByteLane(h, 0), 8), Low(ByteLane(h, 1), 8), Low(ByteLane(h, 2), 8), Low(ByteLane(h, 3), 8), 8)
    else
      Concat2(Low(HalfLane(h, 0), 16), Low(HalfLane(h, 1), 16), 16)
  }
  function Wide(h: Held): nat {
    if h.op.f1 then Concat4(ByteLane(h, 0), ByteLane(h, 1), ByteLane(h, 2), ByteLane(h, 3), 16)
    else Concat2(HalfLane(h, 0), HalfLane(h, 1), 32)
  }

  /** The double word handed to write-back; c is the accumulator read in this stage. */
  function Result(h: Held, c: nat): nat {
    match h.op.cls
    case Rv32m => MulRes(h)
    case WMul => Wide(h)
    case Mul => Narrow(h)
    case AddSub => Narrow(h)
    case QAddSub => Narrow(h)
    case Compare => Narrow(h)
    case Dot => DotOut(h, c)
    case Shift => 0
    case Other => 0
  }
}
