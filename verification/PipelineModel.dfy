/** The back half of the pipeline as far as register operands are concerned: decode-time reads, the
    EXE, MEM and WBK stages with their forwarding, hazards and stall control, and the register file. */
module PipelineModel {
  import opened RegFileModel

  /** What an instruction computes from its three operands: result and paired result. The opcode names
      the dynamic instruction, so memory contents, CSR values and divider state are part of it. */
  type Exec = (nat, Word, Word, Word) -> (Word, Word)

  datatype Operand = Register | Alternate(value: Word)
  datatype WriteBack = Ewb | Dmem | Simd

  datatype Inst = Inst(
    live: bool, op: nat, rs1: Reg, rs2: Reg, rs3: Reg, rd: Reg, we: bool, rdp: bool,
    load: bool, mulSimd: bool, wb: WriteBack, fmt: bool, a: Operand, b: Operand)
  {
    /** What the decoder guarantees. */
    predicate Decoded() {
      && (we ==> rd != 0 && live) && (rdp ==> we)
      && (!a.Register? ==> rs1 == 0) && (!b.Register? ==> rs2 == 0)
      && (load <==> wb.Dmem?) && (wb.Simd? ==> mulSimd) && (wb.Dmem? ==> !mulSimd && !rdp)
      && (mulSimd && rs3 != 0 ==> wb.Simd?)
      && (rdp && wb.Ewb? ==> fmt)
    }
  }

  const BUBBLE := Inst(false, 0, 0, 0, 0, 0, false, false, false, false, Ewb, false, Register, Register)

  datatype State = State(
    rf: seq<Word>,
    exe: Inst, opA: Word, opB: Word, opC: Word,
    mem: Inst, memA: Word, memB: Word, memC: Word, ewbMem: Word, ewbPMem: Word, fmtEnMem: bool,
    wbk: Inst, ewbWbk: Word, ewbPWbk: Word, simdWbk: (Word, Word), reqA: Word, reqB: Word, reqC: Word)

  /** Per cycle: the instruction in decode, the front end's bubbles, the stall sources, the memory
      response, and the EXE result of instructions whose real result comes later. */
  datatype In = In(dec: Inst, bubbleDec: bool, bubbleExe: bool, dcStalled: bool, divStalled: bool, csrStalled: bool,
                   dmem: Word, early: Word)

  // ---------------------------------------------------------------------------------------
  // Dependencies

  predicate On(rs: Reg, i: Inst) { rs != 0 && rs == i.rd && i.we }
  predicate OnPair(rs: Reg, i: Inst) { rs != 0 && rs == Pair(i.rd) && i.rdp }
  predicate Depends(rs: Reg, i: Inst) { On(rs, i) || OnPair(rs, i) }

  datatype Source = FromMem | FromWbk | FromMemPair | FromWbkPair

  function SourceExe(rs: Reg, s: State): Source {
    if Depends(rs, s.mem) then (if OnPair(rs, s.mem) then FromMemPair else FromMem)
    else if OnPair(rs, s.wbk) then FromWbkPair else FromWbk
  }
  predicate ForwardExe(rs: Reg, s: State) { Depends(rs, s.mem) || Depends(rs, s.wbk) }

  function SourceLate(rs: Reg, s: State): Source { if OnPair(rs, s.wbk) then FromWbkPair else FromWbk }
  predicate ForwardLate(rs: Reg, s: State) { Depends(rs, s.wbk) }

  // ---------------------------------------------------------------------------------------
  // Values on the forwarding paths

  function WriteBackValue(s: State, i: In): Word {
    match s.wbk.wb
    case Ewb => s.ewbWbk
    case Dmem => i.dmem
    case Simd => s.simdWbk.0
  }
  function WriteBackPair(s: State): Word { if s.wbk.wb.Simd? then s.simdWbk.1 else s.ewbPWbk }

  function Forwarded(src: Source, s: State, i: In): Word {
    match src
    case FromMem => s.ewbMem
    case FromWbk => WriteBackValue(s, i)
    case FromMemPair => s.ewbPMem
    case FromWbkPair => WriteBackPair(s)
  }

  /** Operands resolved in EXE. */
  function OpAR(s: State, i: In): Word {
    if ForwardExe(s.exe.rs1, s) then Forwarded(SourceExe(s.exe.rs1, s), s, i) else s.opA
  }
  function OpBR(s: State, i: In): Word {
    if ForwardExe(s.exe.rs2, s) then Forwarded(SourceExe(s.exe.rs2, s), s, i) else s.opB
  }
  function OpCR(s: State, i: In): Word {
    if ForwardExe(s.exe.rs3, s) then Forwarded(SourceExe(s.exe.rs3, s), s, i) else s.opC
  }

  /** The accumulator as MEM sees it. */
  function OpCLate(s: State, i: In): Word {
    if ForwardLate(s.mem.rs3, s) then Forwarded(SourceLate(s.mem.rs3, s), s, i) else s.memC
  }

  /** Operands read in decode. */
  function OpADec(s: State, i: In): Word requires |s.rf| == REGS {
    if !i.dec.a.Register? then i.dec.a.value
    else if ForwardLate(i.dec.rs1, s) then Forwarded(SourceLate(i.dec.rs1, s), s, i)
    else ReadRf(s.rf, i.dec.rs1)
  }
  function OpBDec(s: State, i: In): Word requires |s.rf| == REGS {
    if !i.dec.b.Register? then i.dec.b.value
    else if ForwardLate(i.dec.rs2, s) then Forwarded(SourceLate(i.dec.rs2, s), s, i)
    else ReadRf(s.rf, i.dec.rs2)
  }
  function OpCDec(s: State, i: In): Word requires |s.rf| == REGS {
    if ForwardLate(i.dec.rs3, s) then Forwarded(SourceLate(i.dec.rs3, s), s, i) else ReadRf(s.rf, i.dec.rs3)
  }

  // ---------------------------------------------------------------------------------------
  // Hazards and stage control

  predicate HazardMem(s: State) {
    && (s.mem.load || s.mem.mulSimd)
    && (Depends(s.exe.rs1, s.mem) || Depends(s.exe.rs2, s.mem) || (Depends(s.exe.rs3, s.mem) && !s.exe.mulSimd))
  }
  predicate HazardWbk(s: State, i: In) {
    && s.wbk.load && i.dcStalled
    && (Depends(s.exe.rs1, s.wbk) || Depends(s.exe.rs2, s.wbk) || Depends(s.exe.rs3, s.wbk))
  }
  predicate Hazard(s: State, i: In) { HazardMem(s) || HazardWbk(s, i) }

  datatype Stage = Stage(flush: bool, en: bool, bubble: bool)

  function DecExe(s: State, i: In): Stage {
    Stage(i.bubbleExe, !i.dcStalled && !Hazard(s, i) && !i.divStalled && !i.csrStalled, i.bubbleDec)
  }
  function ExeMem(s: State, i: In): Stage {
    Stage(false, !i.dcStalled, !DecExe(s, i).en || Hazard(s, i) || i.bubbleExe || i.divStalled || i.csrStalled)
  }
  function MemWbk(s: State, i: In): Stage { Stage(false, !i.dcStalled, !s.mem.live) }

  /** The instruction in EXE moves on; the one in MEM does; the one in WBK completes. */
  predicate ExeAdvances(s: State, i: In) { ExeMem(s, i).en && !ExeMem(s, i).bubble }
  predicate MemAdvances(i: In) { !i.dcStalled }

  // ---------------------------------------------------------------------------------------
  // Edge

  function WriteRf(rf: seq<Word>, i: Inst, v: Word, p: Word): (r: seq<Word>)
    requires |rf| == REGS
    ensures |r| == REGS
  {
    FlatWrite(rf, Write(i.we, i.rdp, i.rd, v, p))
  }

  datatype ExeRegs = ExeRegs(exe: Inst, a: Word, b: Word, c: Word)

  function NextExe(s: State, i: In): ExeRegs requires |s.rf| == REGS {
    var k := DecExe(s, i);
    var inst := if k.flush then BUBBLE else if k.en then (if k.bubble then BUBBLE else i.dec) else s.exe;
    if k.flush then ExeRegs(inst, 0, 0, 0)
    else if ExeMem(s, i).bubble then ExeRegs(inst, OpAR(s, i), OpBR(s, i), OpCR(s, i))
    else if k.en then
      (if k.bubble then ExeRegs(inst, 0, 0, 0) else ExeRegs(inst, OpADec(s, i), OpBDec(s, i), OpCDec(s, i)))
    else ExeRegs(inst, s.opA, s.opB, s.opC)
  }

  /** A stage register that is loaded only when its own enable holds. */
  function Loaded<T>(k: Stage, en: bool, d: T, q: T, cleared: T): T {
    if k.flush then cleared else if k.en && en then (if k.bubble then cleared else d) else q
  }

  /** EXE result: instructions whose result comes later pass something else down this path. */
  function ExeResult(exec: Exec, s: State, i: In): (Word, Word) {
    if s.exe.wb.Ewb? then exec(s.exe.op, OpAR(s, i), OpBR(s, i), OpCR(s, i)) else (i.early, i.early)
  }

  function Next(exec: Exec, s: State, i: In): State
    requires |s.rf| == REGS
  {
    var em, mw, e := ExeMem(s, i), MemWbk(s, i), NextExe(s, i);
    var r := ExeResult(exec, s, i);
    State(
      WriteRf(s.rf, s.wbk, WriteBackValue(s, i), WriteBackPair(s)),
      e.exe, e.a, e.b, e.c,
      Loaded(em, true, s.exe, s.mem, BUBBLE),
      Loaded(em, true, OpAR(s, i), s.memA, 0), Loaded(em, true, OpBR(s, i), s.memB, 0), Loaded(em, true, OpCR(s, i), s.memC, 0),
      Loaded(em, s.exe.we, r.0, s.ewbMem, 0), Loaded(em, s.exe.fmt, r.1, s.ewbPMem, 0), Loaded(em, s.exe.fmt, true, s.fmtEnMem, false),
      Loaded(mw, true, s.mem, s.wbk, BUBBLE),
      Loaded(mw, s.mem.we, s.ewbMem, s.ewbWbk, 0), Loaded(mw, s.fmtEnMem, s.ewbPMem, s.ewbPWbk, 0),
      Loaded(mw, s.mem.mulSimd, exec(s.mem.op, s.memA, s.memB, OpCLate(s, i)), s.simdWbk, (0, 0)),
      Loaded(mw, true, s.memA, s.reqA, 0), Loaded(mw, true, s.memB, s.reqB, 0), Loaded(mw, true, s.memC, s.reqC, 0))
  }

  function AfterReset(rf: seq<Word>): State {
    State(rf, BUBBLE, 0, 0, 0, BUBBLE, 0, 0, 0, 0, 0, false, BUBBLE, 0, 0, (0, 0), 0, 0, 0)
  }

  /** The memory answers the load in WBK in the first cycle that is not stalled. */
  predicate MemoryAnswers(exec: Exec, s: State, i: In) {
    s.wbk.load && !i.dcStalled ==> i.dmem == exec(s.wbk.op, s.reqA, s.reqB, s.reqC).0
  }

  // ---------------------------------------------------------------------------------------
  // Sequential execution

  function ReadA(r: seq<Word>, i: Inst): Word requires |r| == REGS { if i.a.Register? then ReadRf(r, i.rs1) else i.a.value }
  function ReadB(r: seq<Word>, i: Inst): Word requires |r| == REGS { if i.b.Register? then ReadRf(r, i.rs2) else i.b.value }
  function ReadC(r: seq<Word>, i: Inst): Word requires |r| == REGS { ReadRf(r, i.rs3) }

  function Value(exec: Exec, r: seq<Word>, i: Inst): (Word, Word) requires |r| == REGS {
    exec(i.op, ReadA(r, i), ReadB(r, i), ReadC(r, i))
  }

  /** One instruction on the sequential machine. */
  function Execute(exec: Exec, r: seq<Word>, i: Inst): (r': seq<Word>)
    requires |r| == REGS
    ensures |r'| == REGS
  {
    var v := Value(exec, r, i);
    WriteRf(r, i, v.0, v.1)
  }

  function Sequential(exec: Exec, r: seq<Word>, insts: seq<Inst>): (r': seq<Word>)
    requires |r| == REGS
    ensures |r'| == REGS
    decreases |insts|
  {
    if insts == [] then r
    else Execute(exec, Sequential(exec, r, insts[..|insts| - 1]), insts[|insts| - 1])
  }
}
