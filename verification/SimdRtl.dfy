/** The multiply and dot-product unit as a two-stage pipeline: the EXE/MEM and MEM/WBK registers under
    stage control, and what leaves the unit for an operation that entered it, stalls included. */
module SimdRtl {
  import opened BitSlices
  import opened CarrySave
  import opened BaughWooley
  import opened WordArith
  import opened LaneModel
  import opened LaneProof
  import opened SimdModel
  import opened SimdTiles
  import opened SimdTrees
  import opened SimdResults
  import opened SimdLanes
  import MulSpec

  datatype Ctrl = Ctrl(flush: bool, en: bool, bubble: bool) {
    /** The edge loads the stage register. */
    predicate Captures() { en && !flush && !bubble }
  }

  datatype In = In(en: bool, op: Op, a: nat, b: nat, c: nat, exeMem: Ctrl, memWbk: Ctrl)

  datatype Regs = Regs(mem: Held, p: nat)

  const OP_MUL := Op(Rv32m, false, false, false)
  const NONE := Pair(0, 0)
  const CLEARED := Held(false, OP_MUL, Align(false, false, 16, 32), NONE, NONE, NONE, NONE, 0, 0, 0, false)

  /** A stage register: flush clears it, an enabled bubble clears it, an enabled edge loads it. */
  function Staged<T>(k: Ctrl, en: bool, d: T, q: T, cleared: T): T {
    if k.flush then cleared else if k.en && en then (if k.bubble then cleared else d) else q
  }

  function NextHeld(h: Held, i: In): Held {
    var k, d, z := i.exeMem, HeldOf(i.op, i.a, i.b), CLEARED;
    Held(Staged(k, true, i.en, h.en, z.en), Staged(k, i.en, d.op, h.op, z.op), Staged(k, i.en, d.al, h.al, z.al),
         Staged(k, i.en, d.t0, h.t0, z.t0), Staged(k, i.en, d.t1, h.t1, z.t1),
         Staged(k, i.en, d.t2, h.t2, z.t2), Staged(k, i.en, d.t3, h.t3, z.t3),
         Staged(k, i.en, d.corr, h.corr, z.corr),
         Staged(k, i.en && (!IsSimd(i.op) || UseOperands(i.op)), d.a, h.a, z.a),
         Staged(k, i.en && UseOperands(i.op), d.b, h.b, z.b),
         Staged(k, i.en && !IsSimd(i.op), d.bSign, h.bSign, z.bSign))
  }

  function Next(s: Regs, i: In): Regs {
    Regs(NextHeld(s.mem, i), Staged(i.memWbk, s.mem.en, Result(s.mem, i.c), s.p, 0))
  }

  /** The registers hold an operation: everything its result depends on. */
  ghost predicate Holds(h: Held, op: Op, a: nat, b: nat) {
    var d := HeldOf(op, a, b);
    && h.en && h.op == op && h.al == d.al && h.corr == d.corr
    && h.t0 == d.t0 && h.t1 == d.t1 && h.t2 == d.t2 && h.t3 == d.t3
    && (!IsSimd(op) || UseOperands(op) ==> h.a == a)
    && (UseOperands(op) ==> h.b == b)
    && (!IsSimd(op) ==> h.bSign == d.bSign)
  }

  /** What the instruction set asks of a 32-bit by 32-bit operation with accumulator c; classes that other
      units answer get zero. */
  ghost predicate Delivers(op: Op, a: nat, b: nat, c: nat, p: nat) {
    && (op.cls.Shift? || op.cls.Other? ==> p == 0)
    && (op.cls.Rv32m? && !op.f2 ==> p == MulSpec.Answer(MulOpOf(op), a, b))
    && (op.cls.Dot? ==> p == Wrap(c + DotValue(op.f0, a, b, Size(op), Elements(op)), W))
    && (IsPacked(op) ==> p < Pow2(ResultBits(op)) && forall k :: 0 <= k < 32 / LaneBits(op) ==>
          Slice(p, k, OutBits(op)) == Element(op, Slice(a, k, LaneBits(op)), Slice(b, k, LaneBits(op)), LaneBits(op)))
  }

  lemma HeldDelivers(op: Op, a: nat, b: nat, c: nat)
    requires a < Pow2(W) && b < Pow2(W) && !op.cls.Shift? && !op.cls.Other?
    ensures Delivers(op, a, b, c, Result(HeldOf(op, a, b), c))
  {
    hide Pow2, Result, HeldOf, MulSpec.Answer, DotValue, Slice, Element, Wrap, Size, Elements;
    if op.cls.Rv32m? && !op.f2 {
      MultiplyCorrect(op, a, b, c);
    }
    if op.cls.Dot? {
      DotCorrect(op, a, b, c);
    }
    if IsPacked(op) {
      PackedCorrect(op, a, b, c, 0);
      forall k | 0 <= k < 32 / LaneBits(op)
        ensures Slice(Result(HeldOf(op, a, b), c), k, OutBits(op))
             == Element(op, Slice(a, k, LaneBits(op)), Slice(b, k, LaneBits(op)), LaneBits(op))
      {
        PackedCorrect(op, a, b, c, k);
      }
    }
  }

  /** Operand registers that were not loaded do not matter. */
  lemma StaleOperands(h: Held, op: Op, a: nat, b: nat, c: nat)
    requires Holds(h, op, a, b) && (op.cls.Rv32m? || IsProduct(op) || UseOperands(op) || op.cls.Dot?)
    ensures Result(h, c) == Result(HeldOf(op, a, b), c)
  {
    hide Pow2, FirstTree, CorrOf, Align2, Widths, Csa, Tree8, Low, High, Bit, Join, Slice, Add, Repair, LaneSum;
    var d := HeldOf(op, a, b);
    SameTrees(h, d);
    if IsProduct(op) {
      SameLanes(h, d);
    } else if UseOperands(op) {
      assert h.a == a && h.b == b;
      SameFields(h, d);
    } else {
      SameArray(h, d, c);
    }
  }

  lemma SameTrees(h: Held, d: Held)
    requires h.al == d.al && h.t0 == d.t0 && h.t1 == d.t1 && h.t2 == d.t2 && h.t3 == d.t3
    ensures FinalTree(h) == FinalTree(d)
    ensures h.corr == d.corr ==> SumBw(h) == SumBw(d) && TreeSum(h) == TreeSum(d)
  {
    hide Tree8, Csa, Low;
  }

  lemma SameFields(h: Held, d: Held)
    requires h.op == d.op && h.a == d.a && h.b == d.b && UseOperands(h.op)
    ensures forall k :: 0 <= k < 4 ==> ByteLane(h, k) == ByteLane(d, k)
    ensures forall k :: 0 <= k < 2 ==> HalfLane(h, k) == HalfLane(d, k)
  {
    hide Csa, Low, Slice, Bit, Add, Extend, Invert, High, FinalTree, SatSigned, SatUnsigned, SignedLess, Pow2;
  }

  lemma SameLanes(h: Held, d: Held)
    requires h.op == d.op && h.corr == d.corr && FinalTree(h) == FinalTree(d) && IsProduct(h.op)
    requires h.t0 == d.t0 && h.t1 == d.t1 && h.t2 == d.t2 && h.t3 == d.t3
    ensures forall k :: 0 <= k < 4 ==> ByteLane(h, k) == ByteLane(d, k)
    ensures forall k :: 0 <= k < 2 ==> HalfLane(h, k) == HalfLane(d, k)
  {
    hide Csa, Low, Slice, Bit, Add, Extend, Invert, High, FinalTree, SatSigned, SatUnsigned, SignedLess, Pow2;
  }

  lemma SameArray(h: Held, d: Held, c: nat)
    requires h.op == d.op && SumBw(h) == SumBw(d) && TreeSum(h) == TreeSum(d) && (h.op.cls.Rv32m? || h.op.cls.Dot?)
    requires h.op.cls.Rv32m? ==> h.a == d.a && h.bSign == d.bSign
    ensures Result(h, c) == Result(d, c)
  {
    hide SumBw, TreeSum, Csa, Low, High, Join, Add, Repair, Pow2;
  }

  // ---------------------------------------------------------------------------------------
  // Runs

  ghost predicate IsRun(ys: seq<Regs>, ins: seq<In>) {
    |ys| == |ins| + 1 && forall k :: 0 <= k < |ins| ==> ys[k + 1] == Next(ys[k], ins[k])
  }

  lemma Captured(s: Regs, i: In)
    requires i.en && i.exeMem.Captures()
    ensures Holds(Next(s, i).mem, i.op, i.a, i.b)
  {
    hide FirstTree, CorrOf, Align2, Widths, Result, Bit;
  }

  lemma Kept(s: Regs, i: In, op: Op, a: nat, b: nat)
    requires Holds(s.mem, op, a, b) && !i.exeMem.en && !i.exeMem.flush
    ensures Holds(Next(s, i).mem, op, a, b)
  {
    hide FirstTree, CorrOf, Align2, Widths, Result, Bit;
  }

  lemma {:induction false} HeldUntil(ys: seq<Regs>, ins: seq<In>, s: nat, t: nat)
    requires IsRun(ys, ins) && s < t < |ys|
    requires ins[s].en && ins[s].exeMem.Captures()
    requires forall k :: s < k < t ==> !ins[k].exeMem.en && !ins[k].exeMem.flush
    ensures Holds(ys[t].mem, ins[s].op, ins[s].a, ins[s].b)
  {
    hide Next, Holds;
    if t == s + 1 {
      Captured(ys[s], ins[s]);
    } else {
      HeldUntil(ys, ins, s, t - 1);
      Kept(ys[t - 1], ins[t - 1], ins[s].op, ins[s].a, ins[s].b);
    }
  }

  /** The write-back register keeps its word while the last stage is stalled. */
  lemma {:induction false} ResultKept(ys: seq<Regs>, ins: seq<In>, m: nat, u: nat)
    requires IsRun(ys, ins) && m <= u < |ys|
    requires forall k :: m <= k < u ==> !ins[k].memWbk.en && !ins[k].memWbk.flush
    ensures ys[u].p == ys[m].p
    decreases u
  {
    hide NextHeld, Result;
    if u > m {
      ResultKept(ys, ins, m, u - 1);
      assert ys[u - 1 + 1] == Next(ys[u - 1], ins[u - 1]);
    }
  }

  /** An operation enters at edge s, waits in MEM through any stall, and leaves at edge t with the
      accumulator present at that edge: from then on, through any stall of write-back up to cycle u, the
      write-back register holds what the ISA asks for. */
  lemma Delivered(ys: seq<Regs>, ins: seq<In>, s: nat, t: nat, u: nat)
    requires IsRun(ys, ins) && s < t < |ins| && t < u < |ys|
    requires forall k :: t < k < u ==> !ins[k].memWbk.en && !ins[k].memWbk.flush
    requires ins[s].en && ins[s].exeMem.Captures() && ins[s].a < Pow2(W) && ins[s].b < Pow2(W)
    requires forall k :: s < k < t ==> !ins[k].exeMem.en && !ins[k].exeMem.flush
    requires ins[t].memWbk.Captures()
    ensures Delivers(ins[s].op, ins[s].a, ins[s].b, ins[t].c, ys[u].p)
  {
    hide NextHeld, Result, Delivers, Pow2, HeldOf;
    ResultKept(ys, ins, t + 1, u);
    var op, a, b, c := ins[s].op, ins[s].a, ins[s].b, ins[t].c;
    HeldUntil(ys, ins, s, t);
    HoldsEn(ys[t].mem, op, a, b);
    assert ys[t + 1] == Next(ys[t], ins[t]);
    if op.cls.Rv32m? || IsProduct(op) || UseOperands(op) || op.cls.Dot? {
      StaleOperands(ys[t].mem, op, a, b, c);
      HeldDelivers(op, a, b, c);
    } else {
      NothingAsked(ys[t].mem, op, a, b, c);
    }
  }

  lemma HoldsEn(h: Held, op: Op, a: nat, b: nat)
    requires Holds(h, op, a, b)
    ensures h.en && h.op == op
  {
    hide HeldOf;
  }

  lemma NothingAsked(h: Held, op: Op, a: nat, b: nat, c: nat)
    requires h.op == op && (op.cls.Shift? || op.cls.Other?)
    ensures Delivers(op, a, b, c, Result(h, c))
  {
    hide Slice, Element, DotValue, Size, Elements, MulRes, Wide, Narrow, DotOut;
  }

  // ---------------------------------------------------------------------------------------
  // Registers in place

  class Simd {
    var en: bool
    var op: Op
    var al: Align
    var t0: Pair
    var t1: Pair
    var t2: Pair
    var t3: Pair
    var corr: nat
    var a: nat
    var b: nat
    var bSign: bool
    var p: nat

    ghost function View(): Regs
      reads this
    {
      Regs(Held(en, op, al, t0, t1, t2, t3, corr, a, b, bSign), p)
    }

    constructor ()
      ensures View() == Regs(CLEARED, 0)
    {
      en, op, al, corr, a, b, bSign, p := false, OP_MUL, CLEARED.al, 0, 0, 0, false, 0;
      t0, t1, t2, t3 := NONE, NONE, NONE, NONE;
    }

    method ClearMem()
      modifies this
      ensures View() == Regs(CLEARED, old(p))
    {
      en, op, al, corr, a, b, bSign := false, OP_MUL, CLEARED.al, 0, 0, 0, false;
      t0, t1, t2, t3 := NONE, NONE, NONE, NONE;
    }

    /** Load the stage with an operation; operands only where the back end needs them again. */
    method LoadMem(i: In)
      modifies this
      ensures p == old(p)
      ensures View().mem == NextHeld(old(View().mem), i.(en := true, exeMem := Ctrl(false, true, false)))
    {
      hide FirstTree, CorrOf, Align2, Widths, Bit;
      en, op, al, corr := true, i.op, Align2(Widths(i.op)), CorrOf(i.op);
      t0, t1 := FirstTree(i.op, i.a, i.b, 0), FirstTree(i.op, i.a, i.b, 1);
      t2, t3 := FirstTree(i.op, i.a, i.b, 2), FirstTree(i.op, i.a, i.b, 3);
      if !IsSimd(i.op) {
        bSign := Bit(i.b, W - 1) == 1;
      }
      if !IsSimd(i.op) || UseOperands(i.op) {
        a := i.a;
      }
      if UseOperands(i.op) {
        b := i.b;
      }
    }

    /** The write-back register, from the MEM stage as it is before the edge. */
    method ClockWriteback(i: In)
      modifies this`p
      ensures p == Staged(i.memWbk, en, Result(View().mem, i.c), old(p), 0)
    {
      hide Result;
      if i.memWbk.flush {
        p := 0;
      } else if i.memWbk.en && en {
        p := if i.memWbk.bubble then 0 else Result(Held(en, op, al, t0, t1, t2, t3, corr, a, b, bSign), i.c);
      }
    }

    method Clock(i: In)
      modifies this
      ensures View() == Next(old(View()), i)
    {
      hide Result, FirstTree, CorrOf, Align2, Widths, Bit;
      ClockWriteback(i);
      if i.exeMem.flush {
        ClearMem();
      } else if i.exeMem.en {
        if !i.en {
          en := false;
        } else if i.exeMem.bubble {
          ClearStage(i);
        } else {
          LoadMem(i);
        }
      }
    }

    /** An enabled bubble over a valid operation clears what that operation would have loaded. */
    method ClearStage(i: In)
      requires i.en && i.exeMem == Ctrl(false, true, true)
      modifies this
      ensures p == old(p)
      ensures View().mem == NextHeld(old(View().mem), i)
    {
      hide FirstTree, CorrOf, Align2, Widths, Bit;
      en, op, al, corr := false, OP_MUL, CLEARED.al, 0;
      t0, t1, t2, t3 := NONE, NONE, NONE, NONE;
      if !IsSimd(i.op) {
        bSign := false;
      }
      if !IsSimd(i.op) || UseOperands(i.op) {
        a := 0;
      }
      if UseOperands(i.op) {
        b := 0;
      }
    }
  }
}
