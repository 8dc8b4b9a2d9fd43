/** Traps over whole runs: entries and returns alternate, every entry commits the information of the
    last recognition that was not cancelled, and a return gives back the interrupt enable of the entry. */
module TrapProof {
  import opened Options
  import opened TrapModel

  ghost predicate IsRun(us: seq<Unit>, ins: seq<In>) {
    |us| == |ins| + 1 && us[0] == RESET && forall k :: 0 <= k < |ins| ==> us[k + 1] == Next(us[k], ins[k])
  }

  // ---------------------------------------------------------------------------------------
  // Alternation

  datatype Pulse = EntryPulse | RetPulse

  /** The pulses the CSRs see in the first n cycles. */
  function Pulses(us: seq<Unit>, n: nat): seq<Pulse>
    requires n <= |us|
  {
    if n == 0 then []
    else Pulses(us, n - 1) + (if Entry(us[n - 1]) then [EntryPulse] else if Ret(us[n - 1]) then [RetPulse] else [])
  }

  /** Entry first, then strictly in turn. */
  ghost predicate Alternates(p: seq<Pulse>) {
    forall k :: 0 <= k < |p| ==> (p[k].EntryPulse? <==> k % 2 == 0)
  }

  predicate InHandler(f: Fsm) { f.Trapped? || f.RestorePending? || f.RestoreWrite? }

  lemma {:induction false} PulsesAlternate(us: seq<Unit>, ins: seq<In>, n: nat)
    requires IsRun(us, ins) && n < |us|
    ensures Alternates(Pulses(us, n))
    ensures |Pulses(us, n)| % 2 == 1 <==> InHandler(us[n].t.fsm)
  {
    hide Catches, WfiCatches, IrqPend, IrqEnabled, MretCatches, CsrsNext, CaughtInfo, WfiLaunches;
    if n > 0 {
      PulsesAlternate(us, ins, n - 1);
      assert us[n] == Next(us[n - 1], ins[n - 1]);
    }
  }

  // ---------------------------------------------------------------------------------------
  // What an entry commits

  /** The address after a wfi that is parked after n cycles. */
  function Parked(us: seq<Unit>, ins: seq<In>, n: nat): Option<Word>
    requires n <= |ins| && n < |us|
  {
    if n == 0 then None
    else if WfiCatches(us[n - 1], ins[n - 1]) then Some(ins[n - 1].pcInc4)
    else if us[n - 1].t.fsm.Wfi? && us[n].t.fsm != Wfi then None
    else Parked(us, ins, n - 1)
  }

  /** The trap recognised and neither cancelled nor committed after n cycles; an interrupt that wakes a
      parked wfi returns to the instruction after it. */
  function Recognised(us: seq<Unit>, ins: seq<In>, n: nat): Option<Info>
    requires n <= |ins| && n < |us|
  {
    if n == 0 then None
    else
      var u, i := us[n - 1], ins[n - 1];
      if Catches(u, i) then
        Some(Info(if i.xcpt then i.xcptCause else IrqCause(u.c, i),
                  if i.xcpt && i.xcptCause == MCAUSE_ILLEGAL_INST then i.instDec else 0, i.pcDec))
      else if WfiLaunches(u, i) then
        (match Parked(us, ins, n - 1)
         case Some(pc) => Some(Info(IrqCause(u.c, i), 0, pc))
         case None => None)
      else if (u.t.fsm.TrapPending? && i.specWrong) || Entry(u) then None
      else Recognised(us, ins, n - 1)
  }

  lemma {:induction false} HeldInfo(us: seq<Unit>, ins: seq<In>, n: nat)
    requires IsRun(us, ins) && n < |us|
    ensures Parked(us, ins, n) == if us[n].t.fsm.Wfi? then Some(us[n].t.wfiMepc) else None
    ensures Recognised(us, ins, n) == if us[n].t.fsm.TrapPending? || Entry(us[n]) then Some(us[n].t.info) else None
  {
    hide Set, MipOf, CsrsNext;
    if n > 0 {
      HeldInfo(us, ins, n - 1);
      assert us[n] == Next(us[n - 1], ins[n - 1]);
    }
  }

  /** Each entry writes the cause, value and word-aligned address of the trap that was recognised last
      and not cancelled; there always is one. */
  lemma EntryCommits(us: seq<Unit>, ins: seq<In>, n: nat)
    requires IsRun(us, ins) && n < |ins| && Entry(us[n])
    ensures Recognised(us, ins, n).Some?
    ensures var r, c := Recognised(us, ins, n).value, us[n + 1].c;
      c.mcause == r.cause && c.mtval == r.tval && c.mepc == LegalPc(r.pc)
  {
    HeldInfo(us, ins, n);
    assert us[n + 1] == Next(us[n], ins[n]);
  }

  /** An interrupt is recognised only while interrupts are enabled globally and individually, outside
      speculation and outside a handler. */
  lemma InterruptsNeedEnable(us: seq<Unit>, ins: seq<In>, n: nat)
    requires IsRun(us, ins) && n < |ins|
    requires (Catches(us[n], ins[n]) && !ins[n].xcpt) || WfiLaunches(us[n], ins[n])
    ensures Set(us[n].c.mstatus, MIE_BIT) && !ins[n].specActive && !InHandler(us[n].t.fsm)
    ensures (ins[n].meip && Set(us[n].c.mie, MEI)) || (ins[n].mtip && Set(us[n].c.mie, MTI))
  {
    hide Set, MipOf;
    SourceNeeded(us[n].c.mie, ins[n]);
  }

  /** A pending and enabled bit comes from its own source. */
  lemma SourceNeeded(m: Word, i: In)
    ensures Set(m & MipOf(i), MEI) ==> i.meip && Set(m, MEI)
    ensures Set(m & MipOf(i), MTI) ==> i.mtip && Set(m, MTI)
  {
    MaskSources(m);
  }

  lemma MaskSources(m: Word)
    ensures !Set(m & 0, MEI) && !Set(m & 0, MTI)
    ensures Set(m & MEI, MEI) == Set(m, MEI) && !Set(m & MEI, MTI)
    ensures Set(m & MTI, MTI) == Set(m, MTI) && !Set(m & MTI, MEI)
    ensures Set(m & (MEI | MTI), MEI) == Set(m, MEI) && Set(m & (MEI | MTI), MTI) == Set(m, MTI)
  {
  }

  // ---------------------------------------------------------------------------------------
  // Stacking

  /** MPP reads as machine mode and every other bit outside MIE and MPIE as zero. */
  predicate Warl(c: Csrs) {
    && c.mstatus & !MSTATUS_WMASK == MSTATUS_MPP_FIXED
    && c.mie & !MIE_WMASK == 0 && c.mtvec & !PC_ALIGN_MASK == 0 && c.mepc & !PC_ALIGN_MASK == 0
  }

  lemma {:induction false} WarlHolds(us: seq<Unit>, ins: seq<In>, n: nat)
    requires IsRun(us, ins) && n < |us|
    ensures Warl(us[n].c)
  {
    if n > 0 {
      WarlHolds(us, ins, n - 1);
      WarlStep(us[n - 1], ins[n - 1]);
    }
  }

  lemma WarlStep(u: Unit, i: In)
    requires Warl(u.c)
    ensures Warl(Next(u, i).c)
  {
    hide WriteData, Writes, Set, CtrlNext, Stacked, Unstacked, LegalMstatus, LegalMie, LegalPc;
    var d := WriteData(u.c, i);
    LegalValues(d);
    LegalValues(u.t.info.pc);
    StackedLegal(u.c.mstatus);
  }

  lemma LegalValues(d: Word)
    ensures LegalMstatus(d) & !MSTATUS_WMASK == MSTATUS_MPP_FIXED
    ensures LegalMie(d) & !MIE_WMASK == 0 && LegalPc(d) & !PC_ALIGN_MASK == 0
  {
  }

  lemma StackedLegal(m: Word)
    requires m & !MSTATUS_WMASK == MSTATUS_MPP_FIXED
    ensures Stacked(m) & !MSTATUS_WMASK == MSTATUS_MPP_FIXED
    ensures Unstacked(m) & !MSTATUS_WMASK == MSTATUS_MPP_FIXED
  {
  }

  /** The cycle writes mstatus from a csr instruction. */
  predicate MstatusWritten(u: Unit, i: In) { !Entry(u) && !Ret(u) && Writes(i, Mstatus) }

  /** Entry saves MIE in MPIE and clears it; return moves MPIE back and sets it. */
  lemma StackSteps(u: Unit, i: In)
    ensures var m, m' := u.c.mstatus, Next(u, i).c.mstatus;
      && (Entry(u) ==> (Set(m', MPIE_BIT) <==> Set(m, MIE_BIT)) && !Set(m', MIE_BIT))
      && (Ret(u) ==> (Set(m', MIE_BIT) <==> Set(m, MPIE_BIT)) && Set(m', MPIE_BIT))
      && (!Entry(u) && !Ret(u) && !MstatusWritten(u, i) ==> m' == m)
  {
    hide WriteData, Writes, CtrlNext, Stacked, Unstacked, Set, LegalMstatus, LegalMie, LegalPc;
    StackedBits(u.c.mstatus);
  }

  lemma StackedBits(m: Word)
    ensures (Set(Stacked(m), MPIE_BIT) <==> Set(m, MIE_BIT)) && !Set(Stacked(m), MIE_BIT)
    ensures (Set(Unstacked(m), MIE_BIT) <==> Set(m, MPIE_BIT)) && Set(Unstacked(m), MPIE_BIT)
  {
  }

  /** While the handler that was entered in cycle a runs and mstatus is not written, interrupts stay
      disabled and MPIE keeps the enable of the interrupted code. */
  lemma {:induction false} EnableKept(us: seq<Unit>, ins: seq<In>, a: nat, b: nat)
    requires IsRun(us, ins) && a < b < |us| && Entry(us[a])
    requires forall k :: a < k < b ==> !Entry(us[k]) && !Ret(us[k]) && !MstatusWritten(us[k], ins[k])
    ensures !Set(us[b].c.mstatus, MIE_BIT)
    ensures Set(us[b].c.mstatus, MPIE_BIT) <==> Set(us[a].c.mstatus, MIE_BIT)
  {
    hide Next, Writes, Entry, Ret;
    StackSteps(us[b - 1], ins[b - 1]);
    assert us[b - 1 + 1] == Next(us[b - 1], ins[b - 1]);
    if b > a + 1 {
      EnableKept(us, ins, a, b - 1);
    }
  }

  /** A return gives back the interrupt enable its entry saved, unless the handler wrote mstatus. */
  lemma ReturnRestores(us: seq<Unit>, ins: seq<In>, a: nat, b: nat)
    requires IsRun(us, ins) && a < b < |ins| && Entry(us[a]) && Ret(us[b])
    requires forall k :: a < k < b ==> !Entry(us[k]) && !Ret(us[k]) && !MstatusWritten(us[k], ins[k])
    ensures Set(us[b + 1].c.mstatus, MIE_BIT) <==> Set(us[a].c.mstatus, MIE_BIT)
    ensures Set(us[b + 1].c.mstatus, MPIE_BIT)
  {
    hide Next, Writes;
    EnableKept(us, ins, a, b);
    StackSteps(us[b], ins[b]);
    assert us[b + 1] == Next(us[b], ins[b]);
  }

  /** In general a return enables interrupts exactly when the last write to mstatus, by the entry or by
      the handler, left MPIE set. */
  lemma {:induction false} ReturnFollowsLastWrite(us: seq<Unit>, ins: seq<In>, w: nat, b: nat)
    requires IsRun(us, ins) && w < b < |ins| && Ret(us[b])
    requires forall k :: w < k < b ==> !Entry(us[k]) && !Ret(us[k]) && !MstatusWritten(us[k], ins[k])
    ensures Set(us[b + 1].c.mstatus, MIE_BIT) <==> Set(us[w + 1].c.mstatus, MPIE_BIT)
  {
    hide Next, Writes, Entry;
    StackSteps(us[b], ins[b]);
    assert us[b + 1] == Next(us[b], ins[b]);
    Unwritten(us, ins, w, b);
  }

  lemma {:induction false} Unwritten(us: seq<Unit>, ins: seq<In>, w: nat, b: nat)
    requires IsRun(us, ins) && w < b < |us|
    requires forall k :: w < k < b ==> !Entry(us[k]) && !Ret(us[k]) && !MstatusWritten(us[k], ins[k])
    ensures us[b].c.mstatus == us[w + 1].c.mstatus
  {
    hide Next, Writes, Entry, Ret;
    if b > w + 1 {
      Unwritten(us, ins, w, b - 1);
      StackSteps(us[b - 1], ins[b - 1]);
      assert us[b - 1 + 1] == Next(us[b - 1], ins[b - 1]);
    }
  }

  // ---------------------------------------------------------------------------------------
  // Registers in place

  class TrapUnit {
    var fsm: Fsm
    var wfiMepc: Word
    var info: Info
    var mstatus: Word
    var mie: Word
    var mtvec: Word
    var mepc: Word
    var mcause: Word
    var mtval: Word

    ghost function CtrlView(): Ctrl
      reads this`fsm, this`wfiMepc, this`info
    {
      Ctrl(fsm, wfiMepc, info)
    }
    ghost function CsrView(): Csrs
      reads this`mstatus, this`mie, this`mtvec, this`mepc, this`mcause, this`mtval
    {
      Csrs(mstatus, mie, mtvec, mepc, mcause, mtval)
    }
    ghost function View(): Unit
      reads this
    {
      Unit(CtrlView(), CsrView())
    }

    constructor ()
      ensures View() == RESET && fsm == Idle && mstatus == 0x1800 && mie == mtvec == mepc == mcause == mtval == 0
    {
      fsm, wfiMepc, info := Idle, 0, Info(0, 0, 0);
      mstatus, mie, mtvec, mepc, mcause, mtval := MSTATUS_MPP_FIXED, 0, 0, 0, 0, 0;
    }

    /** Trap information and the address after a parked wfi. */
    method Capture(i: In, pend: bool, cause: Word)
      requires pend == IrqPend(View().c, i) && cause == IrqCause(View().c, i)
      modifies this`wfiMepc, this`info
      ensures wfiMepc == CtrlNext(old(View()), i).wfiMepc && info == CtrlNext(old(View()), i).info
    {
      hide Set, MipOf, FsmNext, IrqPend, IrqCause;
      if fsm == Wfi && !i.specWrong && pend {
        info := Info(cause, 0, wfiMepc);
      } else if i.decValid && i.decEn && !i.wfiDec && fsm == Idle && (i.xcpt || pend) {
        info := Info(if i.xcpt then i.xcptCause else cause,
                     if i.xcpt && i.xcptCause == MCAUSE_ILLEGAL_INST then i.instDec else 0, i.pcDec);
      }
      if i.decValid && i.decEn && fsm == Idle && i.wfiDec {
        wfiMepc := i.pcInc4;
      }
    }

    method ClockFsm(ghost u: Unit, i: In, pend: bool, enabled: bool)
      requires u.t.fsm == fsm && pend == IrqPend(u.c, i) && enabled == IrqEnabled(u.c, i)
      modifies this`fsm
      ensures fsm == FsmNext(u, i)
    {
      hide Set, MipOf, IrqPend, IrqEnabled;
      match fsm {
        case Idle =>
          if i.decValid && i.decEn && i.wfiDec {
            fsm := Wfi;
          } else if i.decValid && i.decEn && (i.xcpt || pend) {
            fsm := TrapPending;
          }
        case Wfi =>
          if i.specWrong {
            fsm := Idle;
          } else if pend {
            fsm := TrapPending;
          } else if enabled && !i.specActive {
            fsm := Idle;
          }
        case TrapPending =>
          if i.specWrong {
            fsm := Idle;
          } else if i.tagTrapped {
            fsm := TrapWrite;
          }
        case TrapWrite =>
          fsm := Trapped;
        case Trapped =>
          if i.mretDec && i.decEn {
            fsm := RestorePending;
          }
        case RestorePending =>
          if i.tagMret {
            fsm := RestoreWrite;
          }
        case RestoreWrite =>
          fsm := Idle;
      }
    }

    /** mstatus: entry and return take priority over a csr instruction. */
    method ClockStatus(i: In, w: TrapWr, data: Word)
      modifies this`mstatus
      ensures mstatus == if w.entry then Stacked(old(mstatus)) else if w.ret then Unstacked(old(mstatus))
                         else if Writes(i, Mstatus) then LegalMstatus(data) else old(mstatus)
    {
      hide Stacked, Unstacked, LegalMstatus;
      if w.entry {
        mstatus := Stacked(mstatus);
      } else if w.ret {
        mstatus := Unstacked(mstatus);
      } else if i.csr.we && Addr(i.csr) == Mstatus {
        mstatus := LegalMstatus(data);
      }
    }

    /** The registers an entry fills. */
    method ClockTrapInfo(i: In, w: TrapWr, data: Word)
      modifies this`mepc, this`mcause, this`mtval
      ensures mepc == if w.entry then LegalPc(w.info.pc) else if Writes(i, Mepc) then LegalPc(data) else old(mepc)
      ensures mcause == if w.entry then w.info.cause else if Writes(i, Mcause) then data else old(mcause)
      ensures mtval == if w.entry then w.info.tval else if Writes(i, Mtval) then data else old(mtval)
    {
      hide LegalPc;
      if w.entry {
        mepc, mcause, mtval := LegalPc(w.info.pc), w.info.cause, w.info.tval;
      } else if i.csr.we {
        match Addr(i.csr) {
          case Mepc => mepc := LegalPc(data);
          case Mcause => mcause := data;
          case Mtval => mtval := data;
          case _ =>
        }
      }
    }

    /** The controller. */
    method ClockCtrl(i: In)
      modifies this`fsm, this`wfiMepc, this`info
      ensures CtrlView() == CtrlNext(old(View()), i)
    {
      hide IrqPend, IrqEnabled, IrqCause, Catches, WfiCatches, WfiLaunches, CaughtInfo, FsmNext;
      ghost var u := View();
      var c := Csrs(mstatus, mie, mtvec, mepc, mcause, mtval);
      var pend, enabled, cause := IrqPend(c, i), IrqEnabled(c, i), IrqCause(c, i);
      Capture(i, pend, cause);
      ClockFsm(u, i, pend, enabled);
    }

    /** The CSRs, on the controller's write port. */
    method ClockCsrs(i: In, w: TrapWr)
      modifies this`mstatus, this`mie, this`mtvec, this`mepc, this`mcause, this`mtval
      ensures CsrView() == CsrsNext(old(CsrView()), i, w)
    {
      hide WriteData, Writes, Addr, Stacked, Unstacked, LegalMstatus, LegalMie, LegalPc;
      var data := WriteData(Csrs(mstatus, mie, mtvec, mepc, mcause, mtval), i);
      ClockStatus(i, w, data);
      ClockTrapInfo(i, w, data);
      ClockVectors(i, data);
    }

    /** One clock edge of both modules; the CSRs see the write port as it was before the edge. */
    method Clock(i: In)
      modifies this
      ensures View() == Next(old(View()), i)
    {
      hide CtrlNext, CsrsNext;
      var w := TrapWr(fsm == TrapWrite, fsm == RestoreWrite, info);
      ClockCtrl(i);
      ClockCsrs(i, w);
    }

    /** Registers written by csr instructions only. */
    method ClockVectors(i: In, data: Word)
      modifies this`mtvec, this`mie
      ensures mtvec == (if Writes(i, Mtvec) then LegalPc(data) else old(mtvec))
      ensures mie == if Writes(i, Mie) then LegalMie(data) else old(mie)
    {
      hide LegalPc, LegalMie;
      if i.csr.we && Addr(i.csr) == Mtvec {
        mtvec := LegalPc(data);
      }
      if i.csr.we && Addr(i.csr) == Mie {
        mie := LegalMie(data);
      }
    }
  }
}
