/** Restoring divider: registers, combinational signals and the state after the next clock edge,
    for words of 2^lw bits (lw = 5 in the core). */
module DivModel {
  import opened BitSlices

  function Width(lw: nat): nat { Pow2(lw) }
  function Modulus(lw: nat): (m: nat) ensures m >= 1 { Pow2(Width(lw)) }

  // ---------------------------------------------------------------------------------------
  // Word operations

  /** Two's complement negation, ~x + 1. */
  function Neg(x: nat, m: nat): (r: nat)
    requires x < m
    ensures r < m
  {
    (m - 1 - x + 1) % m
  }

  function Shr(x: nat, n: nat): nat { High(x, n) }
  function Shl(x: nat, n: nat, m: nat): nat requires m > 0 { x * Pow2(n) % m }

  /** Bitwise conjunction. */
  function And(x: nat, y: nat): nat {
    if x == 0 || y == 0 then 0 else (if x % 2 == 1 && y % 2 == 1 then 1 else 0) + 2 * And(x / 2, y / 2)
  }

  /** Leading zeros of a window of 2^n bits, by halving: each level tests the upper half, yields one
      count bit and keeps the half that holds the first set bit (the lower one if none is set). */
  function Clz(x: nat, n: nat): (c: nat)
    ensures c < Pow2(n)
    decreases n
  {
    if n == 0 then 0
    else
      var half := Pow2(n - 1);
      var upper := High(x, half);
      if upper != 0 then Clz(upper, n - 1) else half + Clz(Low(x, half), n - 1)
  }

  // ---------------------------------------------------------------------------------------
  // Registers

  datatype In = In(start: bool, flush: bool, opRem: bool, opUns: bool, a: nat, b: nat)
  datatype Fsm = Idle | Setting | Iterating | Fixing
  datatype Setup = Setup(
    a: nat, b: nat, absA: nat, absB: nat, opRem: bool, opUns: bool,
    quotNeg: bool, remNeg: bool, divByZero: bool, overflow: bool)
  datatype Ds = Ds(
    result: nat, dividend: nat, divisor: nat, quot: nat, rem: nat, iterCount: nat,
    opRem: bool, quotNeg: bool, remNeg: bool)
  datatype Entry = Entry(a: nat, b: nat, quot: nat, rem: nat, opUns: bool)

  datatype Regs = Regs(fsm: Fsm, setup: Setup, ds: Ds, entry: Entry, entryValid: bool)

  const SETUP0 := Setup(0, 0, 0, 0, false, false, false, false, false, false)
  const DS0 := Ds(0, 0, 0, 0, 0, 0, false, false, false)

  predicate IsWord(x: nat, lw: nat) { x < Modulus(lw) }
  predicate InOk(i: In, lw: nat) { IsWord(i.a, lw) && IsWord(i.b, lw) }

  predicate RegsOk(s: Regs, lw: nat) {
    && IsWord(s.setup.a, lw) && IsWord(s.setup.b, lw) && IsWord(s.setup.absA, lw) && IsWord(s.setup.absB, lw)
    && IsWord(s.ds.dividend, lw) && IsWord(s.ds.divisor, lw) && IsWord(s.ds.quot, lw) && IsWord(s.ds.rem, lw)
  }

  // ---------------------------------------------------------------------------------------
  // Start

  /** The operands as SETUP sees them: signs, magnitudes, exceptional cases. */
  function SetupOf(i: In, lw: nat): Setup
    requires InOk(i, lw)
  {
    var m := Modulus(lw);
    var aNeg, bNeg := !i.opUns && 2 * i.a >= m, !i.opUns && 2 * i.b >= m;
    Setup(i.a, i.b, if aNeg then Neg(i.a, m) else i.a, if bNeg then Neg(i.b, m) else i.b,
          i.opRem, i.opUns, aNeg != bNeg, aNeg, i.b == 0,
          !i.opUns && 2 * i.a == m && i.b == m - 1)
  }

  predicate CacheHit(s: Regs, i: In) {
    s.fsm.Idle? && i.start && s.entryValid && i.a == s.entry.a && i.b == s.entry.b && i.opUns == s.entry.opUns
  }

  // ---------------------------------------------------------------------------------------
  // SETUP: leading zero counts, special cases

  function IterCount(u: Setup, lw: nat): nat {
    var w := Width(lw);
    var skipB := w - Clz(u.absB, lw) - 1;
    var skip := (Clz(u.absA, lw) + skipB) % (2 * w);
    (w + 2 * w - skip) % (2 * w)
  }

  /** The number of positions the dividend is shifted before the first step. */
  function Skip(u: Setup, lw: nat): nat {
    var w := Width(lw);
    (Clz(u.absA, lw) + (w - Clz(u.absB, lw) - 1)) % (2 * w)
  }

  predicate LessThan(u: Setup) { !u.divByZero && (u.absA == 0 || u.absA < u.absB) }
  predicate PowerOfTwo(u: Setup) { !LessThan(u) && u.absB != 0 && And(u.absB, u.absB - 1) == 0 }
  predicate Special(u: Setup) { u.divByZero || u.overflow || LessThan(u) || PowerOfTwo(u) }

  function SpecialResult(u: Setup, lw: nat): nat
    requires IsWord(u.absA, lw)
  {
    var m := Modulus(lw);
    if u.divByZero then (if u.opRem then u.a else m - 1)
    else if u.overflow then (if u.opRem then 0 else u.a)
    else if LessThan(u) then (if u.opRem then u.a else 0)
    else if PowerOfTwo(u) then
      var q := Shr(u.absA, Width(lw) - 1 - Clz(u.absB, lw)) % m;
      var r := And(u.absA, u.absB - 1) % m;
      if u.opRem then (if u.remNeg then Neg(r, m) else r) else (if u.quotNeg then Neg(q, m) else q)
    else 0
  }

  // ---------------------------------------------------------------------------------------
  // ITER: one restoring step; W+1 bit subtraction by adding the complement, carry out = no borrow

  datatype IterStep = IterStep(subtract: bool, rem: nat, quot: nat, dividend: nat)

  function Iterate(d: Ds, m: nat): IterStep
    requires d.dividend < m && d.divisor < m
  {
    var remShift := 2 * d.rem + (if 2 * d.dividend >= m then 1 else 0);
    var sum := remShift + (2 * m - 1 - d.divisor) + 1;
    var subtract := sum >= 2 * m;
    IterStep(subtract,
             if subtract then sum % (2 * m) % m else remShift % m,
             2 * d.quot % m + (if subtract then 1 else 0),
             2 * d.dividend % m)
  }

  // ---------------------------------------------------------------------------------------
  // FIXUP

  function QuotFixed(d: Ds, m: nat): nat requires d.quot < m { if d.quotNeg then Neg(d.quot, m) else d.quot }
  function RemFixed(d: Ds, m: nat): nat requires d.rem < m { if d.remNeg then Neg(d.rem, m) else d.rem }

  // ---------------------------------------------------------------------------------------
  // Next state

  predicate Busy(s: Regs, i: In) { !i.flush && !s.fsm.Idle? }

  function Next(s: Regs, i: In, lw: nat): Regs
    requires RegsOk(s, lw) && InOk(i, lw)
  {
    var m := Modulus(lw);
    var u := s.setup;
    if i.flush then s.(fsm := Idle)
    else match s.fsm
      case Idle =>
        if !i.start then s
        else if CacheHit(s, i) then s.(ds := s.ds.(result := if i.opRem then s.entry.rem else s.entry.quot))
        else s.(fsm := Setting, setup := SetupOf(i, lw))
      case Setting =>
        if Special(u) then s.(fsm := Idle, ds := s.ds.(result := SpecialResult(u, lw)))
        else
          var n := IterCount(u, lw);
          Regs(Iterating, u,
               Ds(s.ds.result, Shl(u.absA, Skip(u, lw), m), u.absB, 0, Shr(u.absA, n), n, u.opRem, u.quotNeg, u.remNeg),
               s.entry.(a := u.a, b := u.b, opUns := u.opUns), false)
      case Iterating =>
        var t := Iterate(s.ds, m);
        s.(fsm := if s.ds.iterCount == 1 then Fixing else Iterating,
           ds := s.ds.(dividend := t.dividend, quot := t.quot, rem := t.rem,
                       iterCount := (s.ds.iterCount + 2 * Width(lw) - 1) % (2 * Width(lw))))
      case Fixing =>
        var q, r := QuotFixed(s.ds, m), RemFixed(s.ds, m);
        s.(fsm := Idle, ds := s.ds.(result := if s.ds.opRem then r else q),
           entry := s.entry.(quot := q, rem := r), entryValid := true)
  }
}
