/** Trap controller and the trap CSRs it drives: recognition, parking in wfi, the pulses that enter and
    leave a handler, and mstatus stacking. Words are 32-bit vectors. */
module TrapModel {
  type Word = bv32

  const MCAUSE_ILLEGAL_INST: Word := 2
  const MCAUSE_TIMER_INT: Word := 0x8000_0007
  const MCAUSE_EXT_INT: Word := 0x8000_000B
  const MIE_BIT: Word := 0x8
  const MPIE_BIT: Word := 0x80
  const MTI: Word := 0x80
  const MEI: Word := 0x800
  const MSTATUS_WMASK: Word := 0x88
  const MSTATUS_MPP_FIXED: Word := 0x1800
  const MIE_WMASK: Word := 0x880
  const PC_ALIGN_MASK: Word := 0xFFFF_FFFC

  datatype Info = Info(cause: Word, tval: Word, pc: Word)

  datatype Fsm = Idle | Wfi | TrapPending | TrapWrite | Trapped | RestorePending | RestoreWrite

  datatype Op = OpNone | OpRw | OpRs | OpRc
  datatype Csr = Mstatus | Mie | Mip | Mtvec | Mepc | Mcause | Mtval | OtherCsr

  /** A csr instruction in EXE. */
  datatype CsrIn = CsrIn(en: bool, re: bool, we: bool, op: Op, src: Word, addr: Csr)

  /** Everything the pair of modules samples in one cycle: the instruction in decode, speculation, the
      tags arriving in WBK, the interrupt sources and the csr instruction. */
  datatype In = In(
    xcpt: bool, xcptCause: Word, mretDec: bool, wfiDec: bool, decValid: bool, decEn: bool,
    pcDec: Word, pcInc4: Word, instDec: Word, specActive: bool, specWrong: bool,
    tagTrapped: bool, tagMret: bool, mtip: bool, meip: bool, csr: CsrIn)

  datatype Ctrl = Ctrl(fsm: Fsm, wfiMepc: Word, info: Info)
  datatype Csrs = Csrs(mstatus: Word, mie: Word, mtvec: Word, mepc: Word, mcause: Word, mtval: Word)
  datatype Unit = Unit(t: Ctrl, c: Csrs)

  predicate Set(w: Word, bit: Word) { w & bit != 0 }

  // ---------------------------------------------------------------------------------------
  // Recognition

  function MipOf(i: In): Word { (if i.meip then MEI else 0) | (if i.mtip then MTI else 0) }

  predicate ExternalIrq(c: Csrs, i: In) { Set(c.mie & MipOf(i), MEI) }
  predicate TimerIrq(c: Csrs, i: In) { Set(c.mie & MipOf(i), MTI) }
  predicate IrqEnabled(c: Csrs, i: In) { ExternalIrq(c, i) || TimerIrq(c, i) }
  predicate IrqPend(c: Csrs, i: In) { Set(c.mstatus, MIE_BIT) && IrqEnabled(c, i) && !i.specActive }
  function IrqCause(c: Csrs, i: In): Word { if ExternalIrq(c, i) then MCAUSE_EXT_INT else MCAUSE_TIMER_INT }

  predicate Catches(u: Unit, i: In) {
    i.decValid && i.decEn && !i.wfiDec && u.t.fsm.Idle? && (i.xcpt || IrqPend(u.c, i))
  }
  predicate WfiCatches(u: Unit, i: In) { i.decValid && i.decEn && u.t.fsm.Idle? && i.wfiDec }
  predicate WfiLaunches(u: Unit, i: In) { u.t.fsm.Wfi? && !i.specWrong && IrqPend(u.c, i) }
  predicate MretCatches(u: Unit, i: In) { u.t.fsm.Trapped? && i.mretDec && i.decEn }

  /** The information of a trap recognised in this cycle. */
  function CaughtInfo(u: Unit, i: In): Info {
    if WfiLaunches(u, i) then Info(IrqCause(u.c, i), 0, u.t.wfiMepc)
    else Info(if i.xcpt then i.xcptCause else IrqCause(u.c, i),
              if i.xcpt && i.xcptCause == MCAUSE_ILLEGAL_INST then i.instDec else 0, i.pcDec)
  }

  predicate Entry(u: Unit) { u.t.fsm.TrapWrite? }
  predicate Ret(u: Unit) { u.t.fsm.RestoreWrite? }

  function FsmNext(u: Unit, i: In): Fsm {
    match u.t.fsm
    case Idle => if WfiCatches(u, i) then Wfi else if Catches(u, i) then TrapPending else Idle
    case Wfi =>
      if i.specWrong then Idle
      else if IrqPend(u.c, i) then TrapPending
      else if IrqEnabled(u.c, i) && !i.specActive then Idle
      else Wfi
    case TrapPending => if i.specWrong then Idle else if i.tagTrapped then TrapWrite else TrapPending
    case TrapWrite => Trapped
    case Trapped => if MretCatches(u, i) then RestorePending else Trapped
    case RestorePending => if i.tagMret then RestoreWrite else RestorePending
    case RestoreWrite => Idle
  }

  function CtrlNext(u: Unit, i: In): Ctrl {
    Ctrl(FsmNext(u, i), if WfiCatches(u, i) then i.pcInc4 else u.t.wfiMepc,
         if Catches(u, i) || WfiLaunches(u, i) then CaughtInfo(u, i) else u.t.info)
  }

  // ---------------------------------------------------------------------------------------
  // CSRs

  /** Address as decoded: a disabled access selects none of these registers. */
  function Addr(x: CsrIn): Csr { if x.en then x.addr else OtherCsr }

  function ReadCsr(c: Csrs, i: In): Word {
    if !i.csr.re then 0
    else match Addr(i.csr)
      case Mstatus => c.mstatus
      case Mie => c.mie
      case Mip => MipOf(i)
      case Mtvec => c.mtvec
      case Mepc => c.mepc
      case Mcause => c.mcause
      case Mtval => c.mtval
      case OtherCsr => 0
  }

  /** The word a csr instruction writes, from what it read and its source operand. */
  function Combined(op: Op, read: Word, src: Word): Word {
    match op
    case OpRw => src
    case OpRs => read | src
    case OpRc => read & !src
    case OpNone => 0
  }

  function WriteData(c: Csrs, i: In): Word { Combined(i.csr.op, ReadCsr(c, i), i.csr.src) }

  predicate Writes(i: In, r: Csr) { i.csr.we && Addr(i.csr) == r }

  /** The trap controller's write port. */
  datatype TrapWr = TrapWr(entry: bool, ret: bool, info: Info)

  function TrapWrOf(u: Unit): TrapWr { TrapWr(Entry(u), Ret(u), u.t.info) }

  // Legal values: what a write leaves of its data.
  function LegalMstatus(d: Word): Word { (d & MSTATUS_WMASK) | MSTATUS_MPP_FIXED }
  function LegalMie(d: Word): Word { d & MIE_WMASK }
  function LegalPc(d: Word): Word { d & PC_ALIGN_MASK }

  /** MIE moves to MPIE and is cleared. */
  function Stacked(m: Word): Word { (if Set(m, MIE_BIT) then m | MPIE_BIT else m & !MPIE_BIT) & !MIE_BIT }
  /** MPIE moves to MIE and is set. */
  function Unstacked(m: Word): Word { (if Set(m, MPIE_BIT) then m | MIE_BIT else m & !MIE_BIT) | MPIE_BIT }

  function MstatusNext(c: Csrs, i: In, w: TrapWr): Word {
    if w.entry then Stacked(c.mstatus)
    else if w.ret then Unstacked(c.mstatus)
    else if Writes(i, Mstatus) then LegalMstatus(WriteData(c, i))
    else c.mstatus
  }

  function CsrsNext(c: Csrs, i: In, w: TrapWr): Csrs {
    var d := WriteData(c, i);
    Csrs(
      MstatusNext(c, i, w),
      if Writes(i, Mie) then LegalMie(d) else c.mie,
      if Writes(i, Mtvec) then LegalPc(d) else c.mtvec,
      if w.entry then LegalPc(w.info.pc) else if Writes(i, Mepc) then LegalPc(d) else c.mepc,
      if w.entry then w.info.cause else if Writes(i, Mcause) then d else c.mcause,
      if w.entry then w.info.tval else if Writes(i, Mtval) then d else c.mtval)
  }

  function Next(u: Unit, i: In): Unit { Unit(CtrlNext(u, i), CsrsNext(u.c, i, TrapWrOf(u))) }

  const RESET := Unit(Ctrl(Idle, 0, Info(0, 0, 0)), Csrs(MSTATUS_MPP_FIXED, 0, 0, 0, 0, 0))
}
