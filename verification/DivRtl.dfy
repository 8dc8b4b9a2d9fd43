/** The divider as registers updated in place at each clock edge, tied to the specification state
    machine, and through it to the arithmetic: a completed request leaves the ISA's answer in the
    result register and the one-entry result cache only ever holds correct results. */
module DivRtl {
  import opened BitSlices
  import opened DivModel
  import DivProof

  class Divider {
    const lw: nat
    var fsm: Fsm
    var setup: Setup
    var ds: Ds
    var entry: Entry
    var entryValid: bool

    ghost function View(): Regs
      reads this
    {
      Regs(fsm, setup, ds, entry, entryValid)
    }

    ghost predicate Valid()
      reads this
    {
      RegsOk(View(), lw) && DivProof.Inv(View(), lw)
    }

    /** Reset clears the working registers and the valid bit; the stored entry is left as it powers up. */
    constructor (lw: nat, powerUp: Entry)
      ensures this.lw == lw && Valid()
      ensures View() == Regs(Idle, SETUP0, DS0, powerUp, false)
    {
      this.lw := lw;
      fsm, setup, ds, entry, entryValid := Idle, SETUP0, DS0, powerUp, false;
      new;
      DivProof.ResetOk(View(), lw);
    }

    /** The 'busy' output, seen by the pipeline in the same cycle. */
    method Sample(i: In) returns (busy: bool, result: nat)
      ensures busy == Busy(View(), i) && result == ds.result
    {
      busy := !i.flush && fsm != Idle;
      result := ds.result;
    }

    /** Leading zeros of a register, by the same halving as the combinational counter. */
    method CountLeadingZeros(x: nat) returns (c: nat)
      ensures c == Clz(x, lw)
    {
      hide High, Low, Pow2;
      var v: nat, n: nat := x, lw;
      c := 0;
      while n > 0
        invariant n <= lw && c + Clz(v, n) == Clz(x, lw)
      {
        var half := Pow2(n - 1);
        var upper := High(v, half);
        if upper != 0 {
          v := upper;
        } else {
          c := c + half;
          v := Low(v, half);
        }
        n := n - 1;
      }
    }

    /** Capture of a new request. */
    method Accept(i: In)
      requires Valid() && InOk(i, lw) && fsm.Idle? && i.start && !i.flush && !CacheHit(View(), i)
      modifies this`fsm, this`setup
      ensures View() == Next(old(View()), i, lw)
    {
      setup := SetupOf(i, lw);
      fsm := Setting;
    }

    /** SETUP: finish a special case at once, or load the datapath and take the entry over. */
    method Prepare(i: In)
      requires Valid() && InOk(i, lw) && fsm.Setting? && !i.flush
      modifies this
      ensures View() == Next(old(View()), i, lw)
    {
      hide Clz, High, Low, Pow2, And;
      var w, m := Width(lw), Modulus(lw);
      if Special(setup) {
        ds := ds.(result := SpecialResult(setup, lw));
        fsm := Idle;
      } else {
        var za := CountLeadingZeros(setup.absA);
        var zb := CountLeadingZeros(setup.absB);
        var skip := (za + (w - zb - 1)) % (2 * w);
        var count := (w + 2 * w - skip) % (2 * w);
        ds := Ds(ds.result, Shl(setup.absA, skip, m), setup.absB, 0, Shr(setup.absA, count), count,
                 setup.opRem, setup.quotNeg, setup.remNeg);
        entry := entry.(a := setup.a, b := setup.b, opUns := setup.opUns);
        entryValid := false;
        fsm := Iterating;
      }
    }

    /** ITER: shift one dividend bit in and subtract when it fits. */
    method Advance(i: In)
      requires Valid() && InOk(i, lw) && fsm.Iterating? && !i.flush
      modifies this`fsm, this`ds
      ensures View() == Next(old(View()), i, lw)
    {
      hide Pow2;
      var w := Width(lw);
      var t := Iterate(ds, Modulus(lw));
      fsm := if ds.iterCount == 1 then Fixing else Iterating;
      ds := ds.(dividend := t.dividend, quot := t.quot, rem := t.rem, iterCount := (ds.iterCount + 2 * w - 1) % (2 * w));
    }

    /** FIXUP: put the signs back, publish the result and fill the entry. */
    method Publish(i: In)
      requires Valid() && InOk(i, lw) && fsm.Fixing? && !i.flush
      modifies this
      ensures View() == Next(old(View()), i, lw)
    {
      hide Pow2;
      var q, r := QuotFixed(ds, Modulus(lw)), RemFixed(ds, Modulus(lw));
      ds := ds.(result := if ds.opRem then r else q);
      entry := entry.(quot := q, rem := r);
      entryValid := true;
      fsm := Idle;
    }

    /** One clock edge. The cache entry stays correct whatever starts and flushes arrive. */
    method Clock(i: In)
      requires lw > 0 && Valid() && InOk(i, lw)
      modifies this
      ensures Valid()
      ensures View() == Next(old(View()), i, lw)
      ensures DivProof.EntryFresh(View(), lw)
    {
      hide Next, DivProof.Inv, RegsOk, InOk, DivProof.EntryFresh;
      DivProof.StepKeeps(View(), i, lw);
      DivProof.InvFresh(Next(View(), i, lw), lw);
      DivProof.InvRegs(Next(View(), i, lw), lw);
      var hit := entryValid && i.a == entry.a && i.b == entry.b && i.opUns == entry.opUns;
      if !i.flush && fsm.Idle? && i.start && !hit {
        Accept(i);
      } else if !i.flush && fsm.Setting? {
        Prepare(i);
      } else if !i.flush && fsm.Iterating? {
        Advance(i);
      } else if !i.flush && fsm.Fixing? {
        Publish(i);
      } else {
        Hold(i);
      }
    }

    /** Flush, no request, or a request answered from the entry. */
    method Hold(i: In)
      requires Valid() && InOk(i, lw)
      requires i.flush || (fsm.Idle? && (!i.start || CacheHit(View(), i)))
      modifies this`fsm, this`ds
      ensures View() == Next(old(View()), i, lw)
    {
      if i.flush {
        fsm := Idle;
      } else if i.start {
        ds := ds.(result := if i.opRem then entry.rem else entry.quot);
      }
    }
  }
}
