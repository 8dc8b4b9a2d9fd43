/** One n-bit lane of the packed unit: compression of the two product taps, the adder it shares with
    add, subtract and compare, saturation and the output select. */
module LaneModel {
  import opened BitSlices
  import opened CarrySave
  import opened BaughWooley

  datatype Class = AddSub | QAddSub | Mul | WMul | Dot | Compare | Shift | Rv32m | Other
  datatype Op = Op(cls: Class, f2: bool, f1: bool, f0: bool)

  /** w-bit adder with carry in; the carry out is not used. */
  function Add(x: nat, y: nat, ci: bool, w: nat): nat { Low(x + y + (if ci then 1 else 0), w) }

  predicate UseOperands(op: Op) { op.cls.AddSub? || op.cls.QAddSub? || op.cls.Compare? }
  predicate IsSub(op: Op) { (op.cls.AddSub? || op.cls.QAddSub?) && op.f2 }
  predicate SubMode(op: Op) { IsSub(op) || op.cls.Compare? }

  /** Operand extended to 2n bits. */
  function Extend(x: nat, n: nat, uns: bool): nat requires n > 0 {
    if uns || Bit(x, n - 1) == 0 then x else Join(Pow2(n) - 1, x, n)
  }

  /** All ones minus x: bitwise complement of a w-bit word. */
  function Invert(x: nat, w: nat): nat { if x < Pow2(w) then Pow2(w) - 1 - x else 0 }

  function LaneSum(op: Op, a: nat, b: nat, t0: nat, t1: nat, corr: nat, n: nat): nat requires n > 0 {
    var z := Csa(t0, t1, corr, 2 * n);
    var bx := Extend(b, n, op.f0);
    if UseOperands(op) then Add(Extend(a, n, op.f0), if SubMode(op) then Invert(bx, 2 * n) else bx, SubMode(op), 2 * n)
    else Add(z.s, z.c, false, 2 * n)
  }

  /** Signed clamp of an (n+1)-bit result: the guard bit must agree with the sign bit. */
  function SatSigned(r: nat, n: nat): nat requires n > 0 {
    if Bit(r, n) != Bit(r, n - 1) then (if Bit(r, n) == 1 then Pow2(n - 1) else Pow2(n - 1) - 1) else Low(r, n)
  }
  /** Unsigned clamp: the guard bit is the carry or the borrow. */
  function SatUnsigned(r: nat, n: nat, sub: bool): nat {
    if Bit(r, n) == 1 then (if sub then 0 else Pow2(n) - 1) else Low(r, n)
  }

  /** Signed less-than from the operand signs and the sign of the difference. */
  predicate SignedLess(aSign: nat, bSign: nat, sSign: nat) {
    (sSign == 1) != (aSign != bSign && sSign == bSign)
  }

  function LaneOut(op: Op, a: nat, b: nat, t0: nat, t1: nat, corr: nat, n: nat): nat requires n > 0 {
    var sum := LaneSum(op, a, b, t0, t1, corr, n);
    match op.cls
    case WMul => sum
    case Mul => if op.f2 then High(sum, n) else Low(sum, n)
    case AddSub => Low(sum, n)
    case QAddSub =>
      var r := Low(sum, n + 1);
      if op.f0 then SatUnsigned(r, n, IsSub(op)) else SatSigned(r, n)
    case Compare =>
      var less := if op.f0 then Bit(sum, n) == 1 else SignedLess(Bit(a, n - 1), Bit(b, n - 1), Bit(sum, n - 1));
      if op.f2 != less then a else b
    case _ => 0
  }
}
