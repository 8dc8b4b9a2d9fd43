/** The byte-split multiplier's pipeline registers under stage control. */
module MultRtl {
  import opened BitSlices
  import opened MulSpec
  import opened MultModel
  import opened SimdRtl

  datatype MulIn = MulIn(en: bool, op: MulOp, a: nat, b: nat, exeMem: Ctrl, memWbk: Ctrl)
  datatype MulRegs = MulRegs(en: bool, op: MulOp, pp: Partials, p: nat)

  const NO_PARTIALS := Partials(0, 0, 0, 0, 0, 0, 0, 0)

  function NextMul(s: MulRegs, i: MulIn): MulRegs {
    MulRegs(Staged(i.exeMem, true, i.en, s.en, false), Staged(i.exeMem, i.en, i.op, s.op, Mul),
            Staged(i.exeMem, i.en, PartialsOf(i.op, i.a, i.b), s.pp, NO_PARTIALS),
            Staged(i.memWbk, s.en, Output(s.op, Recombined(s.pp)), s.p, 0))
  }

  ghost predicate IsMulRun(ys: seq<MulRegs>, ins: seq<MulIn>) {
    |ys| == |ins| + 1 && forall k :: 0 <= k < |ins| ==> ys[k + 1] == NextMul(ys[k], ins[k])
  }

  lemma {:induction false} PartialsHeld(ys: seq<MulRegs>, ins: seq<MulIn>, s: nat, t: nat)
    requires IsMulRun(ys, ins) && s < t < |ys|
    requires ins[s].en && ins[s].exeMem.Captures()
    requires forall k :: s < k < t ==> !ins[k].exeMem.en && !ins[k].exeMem.flush
    ensures ys[t].en && ys[t].op == ins[s].op && ys[t].pp == PartialsOf(ins[s].op, ins[s].a, ins[s].b)
  {
    hide PartialsOf, Recombined;
    assert ys[t - 1 + 1] == NextMul(ys[t - 1], ins[t - 1]);
    if t > s + 1 {
      PartialsHeld(ys, ins, s, t - 1);
    }
  }

  lemma {:induction false} ProductKept(ys: seq<MulRegs>, ins: seq<MulIn>, m: nat, u: nat)
    requires IsMulRun(ys, ins) && m <= u < |ys|
    requires forall k :: m <= k < u ==> !ins[k].memWbk.en && !ins[k].memWbk.flush
    ensures ys[u].p == ys[m].p
    decreases u
  {
    hide PartialsOf, Recombined;
    if u > m {
      ProductKept(ys, ins, m, u - 1);
      assert ys[u - 1 + 1] == NextMul(ys[u - 1], ins[u - 1]);
    }
  }

  /** A multiply that enters at edge s and leaves MEM at edge t, through any stall in between, puts the word
      the ISA asks for into the write-back register, where it stays through any stall up to cycle u. */
  lemma MulDelivered(ys: seq<MulRegs>, ins: seq<MulIn>, s: nat, t: nat, u: nat)
    requires IsMulRun(ys, ins) && s < t < |ins| && t < u < |ys|
    requires forall k :: t < k < u ==> !ins[k].memWbk.en && !ins[k].memWbk.flush
    requires ins[s].en && ins[s].exeMem.Captures() && ins[s].a < M32 && ins[s].b < M32
    requires forall k :: s < k < t ==> !ins[k].exeMem.en && !ins[k].exeMem.flush
    requires ins[t].memWbk.Captures()
    ensures ys[u].p == Answer(ins[s].op, ins[s].a, ins[s].b)
  {
    hide PartialsOf, Recombined, Answer;
    ProductKept(ys, ins, t + 1, u);
    PartialsHeld(ys, ins, s, t);
    SplitCorrect(ins[s].op, ins[s].a, ins[s].b);
    assert ys[t + 1] == NextMul(ys[t], ins[t]);
  }

  class Mult {
    var en: bool
    var op: MulOp
    var pp: Partials
    var p: nat

    ghost function View(): MulRegs
      reads this
    {
      MulRegs(en, op, pp, p)
    }

    constructor ()
      ensures View() == MulRegs(false, Mul, NO_PARTIALS, 0)
    {
      en, op, pp, p := false, Mul, NO_PARTIALS, 0;
    }

    method Clock(i: MulIn)
      modifies this
      ensures View() == NextMul(old(View()), i)
    {
      hide PartialsOf, Recombined;
      if i.memWbk.flush {
        p := 0;
      } else if i.memWbk.en && en {
        p := if i.memWbk.bubble then 0 else Output(op, Recombined(pp));
      }
      if i.exeMem.flush {
        en, op, pp := false, Mul, NO_PARTIALS;
      } else if i.exeMem.en {
        en := i.en && !i.exeMem.bubble;
        if i.en {
          op := if i.exeMem.bubble then Mul else i.op;
          pp := if i.exeMem.bubble then NO_PARTIALS else PartialsOf(i.op, i.a, i.b);
        }
      }
    }
  }
}
