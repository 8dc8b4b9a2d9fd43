/** Forwarding is invisible: every operand an instruction leaves a stage with is the one it would read
    on a sequential machine, and the register file holds what sequential execution leaves there. */
module PipelineProof {
  import opened PipelineModel
  import opened RegFileModel

  /** r0 is the sequential register file before the instruction in WBK. */
  function R1(exec: Exec, r0: seq<Word>, s: State): (r: seq<Word>)
    requires |r0| == REGS
    ensures |r| == REGS
  {
    Execute(exec, r0, s.wbk)
  }
  function R2(exec: Exec, r0: seq<Word>, s: State): (r: seq<Word>)
    requires |r0| == REGS
    ensures |r| == REGS
  {
    Execute(exec, R1(exec, r0, s), s.mem)
  }

  ghost predicate Files(s: State, r0: seq<Word>) {
    && |s.rf| == REGS && |r0| == REGS
    && forall r: Reg :: r != 0 && !Depends(r, s.wbk) ==> s.rf[r] == r0[r]
  }

  /** The slot in WBK carries its sequential results, except a load, which waits for the memory. */
  ghost predicate WbkOk(exec: Exec, s: State, r0: seq<Word>)
    requires |r0| == REGS
  {
    var i, v := s.wbk, Value(exec, r0, s.wbk);
    && i.Decoded()
    && (i.we && i.wb.Ewb? ==> s.ewbWbk == v.0)
    && (i.rdp && i.wb.Ewb? ==> s.ewbPWbk == v.1)
    && (i.wb.Simd? ==> s.simdWbk == v)
    && (i.load ==> s.reqA == ReadA(r0, i) && s.reqB == ReadB(r0, i) && s.reqC == ReadC(r0, i))
  }

  ghost predicate MemOk(exec: Exec, s: State, r0: seq<Word>)
    requires |r0| == REGS
  {
    var i, r1 := s.mem, R1(exec, r0, s);
    && i.Decoded()
    && (i.we && i.wb.Ewb? ==> s.ewbMem == Value(exec, r1, i).0)
    && (i.rdp && i.wb.Ewb? ==> s.fmtEnMem && s.ewbPMem == Value(exec, r1, i).1)
    && (i.load || i.mulSimd ==> s.memA == ReadA(r1, i) && s.memB == ReadB(r1, i))
    && (i.load ==> s.memC == ReadC(r1, i))
    && (i.mulSimd && !Depends(i.rs3, s.wbk) ==> s.memC == ReadRf(r0, i.rs3))
  }

  predicate Pending(rs: Reg, s: State) { Depends(rs, s.mem) || Depends(rs, s.wbk) }

  /** A held operand is right unless an older instruction still has to deliver it. */
  ghost predicate ExeOk(s: State, r0: seq<Word>)
    requires |r0| == REGS
  {
    var i := s.exe;
    && i.Decoded()
    && (!Pending(i.rs1, s) ==> s.opA == ReadA(r0, i))
    && (!Pending(i.rs2, s) ==> s.opB == ReadB(r0, i))
    && (!Pending(i.rs3, s) ==> s.opC == ReadC(r0, i))
  }

  ghost predicate Inv(exec: Exec, s: State, r0: seq<Word>) {
    Files(s, r0) && WbkOk(exec, s, r0) && MemOk(exec, s, r0) && ExeOk(s, r0)
  }

  // ---------------------------------------------------------------------------------------
  // Writes

  lemma PairDiffers(rd: Reg)
    ensures Pair(rd) != rd
  {
  }

  /** What one write leaves in a register. */
  lemma WriteReads(r: seq<Word>, i: Inst, v: Word, p: Word, x: Reg)
    requires |r| == REGS && i.Decoded()
    ensures ReadRf(WriteRf(r, i, v, p), x) == if On(x, i) then v else if OnPair(x, i) then p else ReadRf(r, x)
    ensures !(On(x, i) && OnPair(x, i))
  {
    PairDiffers(i.rd);
  }

  /** The value on the write-back path is the sequential result, once the memory has answered. */
  lemma WriteBackRight(exec: Exec, s: State, i: In, r0: seq<Word>)
    requires Inv(exec, s, r0) && MemoryAnswers(exec, s, i) && (s.wbk.load ==> !i.dcStalled)
    ensures s.wbk.we ==> WriteBackValue(s, i) == Value(exec, r0, s.wbk).0
    ensures s.wbk.rdp ==> WriteBackPair(s) == Value(exec, r0, s.wbk).1
  {
  }

  /** Forwarding from WBK, else the held value: the sequential register after WBK. */
  lemma WbkForward(exec: Exec, s: State, i: In, r0: seq<Word>, rs: Reg)
    requires Inv(exec, s, r0) && MemoryAnswers(exec, s, i)
    requires s.wbk.load && Depends(rs, s.wbk) ==> !i.dcStalled
    ensures Depends(rs, s.wbk) ==> Forwarded(SourceLate(rs, s), s, i) == ReadRf(R1(exec, r0, s), rs)
    ensures !Depends(rs, s.wbk) ==> ReadRf(R1(exec, r0, s), rs) == ReadRf(r0, rs)
  {
    hide Value, WriteRf;
    var v := Value(exec, r0, s.wbk);
    WriteReads(r0, s.wbk, v.0, v.1, rs);
    if Depends(rs, s.wbk) {
      WriteBackRight(exec, s, i, r0);
    }
  }

  /** Forwarding in EXE, with no hazard on this operand: the sequential register after MEM. */
  lemma ExeForward(exec: Exec, s: State, i: In, r0: seq<Word>, rs: Reg)
    requires Inv(exec, s, r0) && MemoryAnswers(exec, s, i)
    requires Depends(rs, s.mem) ==> !s.mem.load && !s.mem.mulSimd
    requires s.wbk.load && Depends(rs, s.wbk) ==> !i.dcStalled
    ensures ForwardExe(rs, s) ==> Forwarded(SourceExe(rs, s), s, i) == ReadRf(R2(exec, r0, s), rs)
    ensures !ForwardExe(rs, s) ==> ReadRf(R2(exec, r0, s), rs) == ReadRf(r0, rs)
  {
    hide Value, WriteRf;
    var r1 := R1(exec, r0, s);
    var v := Value(exec, r1, s.mem);
    WriteReads(r1, s.mem, v.0, v.1, rs);
    WbkForward(exec, s, i, r0, rs);
  }

  // ---------------------------------------------------------------------------------------
  // Operands

  /** Whatever leaves EXE has read its operands as the sequential machine would, after all older
      instructions; a multiply or dot product may still owe its accumulator. */
  lemma OperandsSequential(exec: Exec, s: State, i: In, r0: seq<Word>)
    requires Inv(exec, s, r0) && MemoryAnswers(exec, s, i) && ExeAdvances(s, i)
    ensures OpAR(s, i) == ReadA(R2(exec, r0, s), s.exe)
    ensures OpBR(s, i) == ReadB(R2(exec, r0, s), s.exe)
    ensures !s.exe.mulSimd ==> OpCR(s, i) == ReadC(R2(exec, r0, s), s.exe)
  {
    hide R2, R1, Forwarded, SourceExe, WbkOk, MemOk, Files;
    ExeForward(exec, s, i, r0, s.exe.rs1);
    ExeForward(exec, s, i, r0, s.exe.rs2);
    if !s.exe.mulSimd {
      ExeForward(exec, s, i, r0, s.exe.rs3);
    }
  }

  /** The accumulator a multiply or dot product leaves MEM with is the sequential one. */
  lemma AccumulatorSequential(exec: Exec, s: State, i: In, r0: seq<Word>)
    requires Inv(exec, s, r0) && MemoryAnswers(exec, s, i) && MemAdvances(i) && s.mem.mulSimd
    ensures OpCLate(s, i) == ReadC(R1(exec, r0, s), s.mem)
  {
    hide R1, Forwarded, SourceLate;
    WbkForward(exec, s, i, r0, s.mem.rs3);
  }

  /** Reads in decode see everything up to and including WBK. */
  lemma DecodeReads(exec: Exec, s: State, i: In, r0: seq<Word>)
    requires Inv(exec, s, r0) && MemoryAnswers(exec, s, i) && !i.dcStalled && i.dec.Decoded()
    ensures var r1 := R1(exec, r0, s);
      OpADec(s, i) == ReadA(r1, i.dec) && OpBDec(s, i) == ReadB(r1, i.dec) && OpCDec(s, i) == ReadC(r1, i.dec)
  {
    hide R1, Forwarded, SourceLate, WbkOk, MemOk, ExeOk;
    WbkForward(exec, s, i, r0, i.dec.rs1);
    WbkForward(exec, s, i, r0, i.dec.rs2);
    WbkForward(exec, s, i, r0, i.dec.rs3);
  }

  // ---------------------------------------------------------------------------------------
  // One cycle

  /** The sequential register file after the cycle: the instruction in WBK completes unless stalled. */
  function NextFile(exec: Exec, r0: seq<Word>, s: State, i: In): (r: seq<Word>)
    requires |r0| == REGS
    ensures |r| == REGS
  {
    if i.dcStalled then r0 else R1(exec, r0, s)
  }

  lemma FilesKeep(exec: Exec, s: State, i: In, r0: seq<Word>)
    requires Inv(exec, s, r0) && MemoryAnswers(exec, s, i)
    ensures Files(Next(exec, s, i), NextFile(exec, r0, s, i))
  {
    hide Value, WriteRf, R2, NextExe, ExeResult, OpCLate, OpAR, OpBR, OpCR;
    var s', r' := Next(exec, s, i), NextFile(exec, r0, s, i);
    var v := Value(exec, r0, s.wbk);
    forall r: Reg | r != 0 && !Depends(r, s'.wbk)
      ensures s'.rf[r] == r'[r]
    {
      WriteReads(s.rf, s.wbk, WriteBackValue(s, i), WriteBackPair(s), r);
      WriteReads(r0, s.wbk, v.0, v.1, r);
      if !i.dcStalled {
        WriteBackRight(exec, s, i, r0);
      }
    }
  }

  /** Moving MEM's slot to WBK does not change what the sequential machine has done. */
  lemma SlotMoves(exec: Exec, s: State, i: In, r0: seq<Word>)
    requires Inv(exec, s, r0) && !i.dcStalled
    ensures var s' := Next(exec, s, i);
      && s'.wbk == (if s.mem.live then s.mem else BUBBLE)
      && R1(exec, R1(exec, r0, s), s') == R2(exec, r0, s)
      && forall r: Reg :: Depends(r, s'.wbk) <==> Depends(r, s.mem)
  {
    hide Value, NextExe, ExeResult, OpCLate, OpAR, OpBR, OpCR;
  }

  lemma WbkKeep(exec: Exec, s: State, i: In, r0: seq<Word>)
    requires Inv(exec, s, r0) && MemoryAnswers(exec, s, i)
    ensures WbkOk(exec, Next(exec, s, i), NextFile(exec, r0, s, i))
  {
    hide R1, R2, WriteRf, NextExe, ExeResult, OpAR, OpBR, OpCR, Files, ExeOk, OpCLate;
    if !i.dcStalled && s.mem.live {
      if s.mem.mulSimd {
        AccumulatorSequential(exec, s, i, r0);
      }
    }
  }

  lemma MemKeep(exec: Exec, s: State, i: In, r0: seq<Word>)
    requires Inv(exec, s, r0) && MemoryAnswers(exec, s, i)
    ensures MemOk(exec, Next(exec, s, i), NextFile(exec, r0, s, i))
  {
    hide WriteRf, NextExe, OpAR, OpBR, OpCR, Files, OpCLate, R2, R1;
    if i.dcStalled {
      MemStalled(exec, s, i, r0);
    } else {
      SlotMoves(exec, s, i, r0);
      if ExeAdvances(s, i) {
        OperandsSequential(exec, s, i, r0);
        LateOperand(exec, s, i, r0);
      }
    }
  }

  lemma MemStalled(exec: Exec, s: State, i: In, r0: seq<Word>)
    requires Inv(exec, s, r0) && i.dcStalled
    ensures MemOk(exec, Next(exec, s, i), r0)
  {
    hide WriteRf, NextExe, OpAR, OpBR, OpCR, OpCLate, R2, ExeResult, WbkOk, ExeOk;
    var s' := Next(exec, s, i);
    assert s'.wbk == s.wbk && s'.mem == s.mem;
    assert R1(exec, r0, s') == R1(exec, r0, s);
  }

  /** The third operand as it enters MEM: right unless the instruction that just left MEM writes it. */
  lemma LateOperand(exec: Exec, s: State, i: In, r0: seq<Word>)
    requires Inv(exec, s, r0) && MemoryAnswers(exec, s, i) && !i.dcStalled
    ensures !Depends(s.exe.rs3, s.mem) ==> OpCR(s, i) == ReadRf(R1(exec, r0, s), s.exe.rs3)
    ensures s.exe.rs3 == 0 ==> OpCR(s, i) == 0
  {
    hide R1, WbkOk, MemOk, Files, Forwarded;
    WbkForward(exec, s, i, r0, s.exe.rs3);
  }

  /** Operands saved while the instruction waits in EXE. */
  lemma SavedOperands(exec: Exec, s: State, i: In, r0: seq<Word>)
    requires Inv(exec, s, r0) && MemoryAnswers(exec, s, i) && !i.dcStalled
    ensures !Depends(s.exe.rs1, s.mem) ==> OpAR(s, i) == ReadA(R1(exec, r0, s), s.exe)
    ensures !Depends(s.exe.rs2, s.mem) ==> OpBR(s, i) == ReadB(R1(exec, r0, s), s.exe)
    ensures !Depends(s.exe.rs3, s.mem) ==> OpCR(s, i) == ReadC(R1(exec, r0, s), s.exe)
  {
    hide R1, WbkOk, MemOk, Files, Forwarded;
    WbkForward(exec, s, i, r0, s.exe.rs1);
    WbkForward(exec, s, i, r0, s.exe.rs2);
    WbkForward(exec, s, i, r0, s.exe.rs3);
  }

  lemma ExeKeep(exec: Exec, s: State, i: In, r0: seq<Word>)
    requires Inv(exec, s, r0) && MemoryAnswers(exec, s, i) && i.dec.Decoded()
    ensures ExeOk(Next(exec, s, i), NextFile(exec, r0, s, i))
  {
    hide R1, R2, WriteRf, ExeResult, OpCLate, WbkOk, MemOk, Files;
    if i.dcStalled {
      ExeStalled(exec, s, i, r0);
    } else {
      hide OpAR, OpBR, OpCR, OpADec, OpBDec, OpCDec;
      InvFiles(exec, s, r0);
      SlotMoves(exec, s, i, r0);
      SavedOperands(exec, s, i, r0);
      DecodeReads(exec, s, i, r0);
    }
  }

  lemma InvFiles(exec: Exec, s: State, r0: seq<Word>)
    requires Inv(exec, s, r0)
    ensures |s.rf| == REGS && |r0| == REGS
  {
  }

  lemma ExeStalled(exec: Exec, s: State, i: In, r0: seq<Word>)
    requires Inv(exec, s, r0) && i.dcStalled
    ensures ExeOk(Next(exec, s, i), r0)
  {
    hide R1, R2, WriteRf, ExeResult, OpCLate, WbkOk, MemOk, Forwarded, SourceExe;
    var s' := Next(exec, s, i);
    assert s'.wbk == s.wbk && s'.mem == s.mem;
  }

  /** The forwarding invariant survives every cycle: any stall, any flush, any instruction. */
  lemma StepKeeps(exec: Exec, s: State, i: In, r0: seq<Word>)
    requires Inv(exec, s, r0) && MemoryAnswers(exec, s, i) && i.dec.Decoded()
    ensures Inv(exec, Next(exec, s, i), NextFile(exec, r0, s, i))
  {
    hide Next, NextFile, Files, WbkOk, MemOk, ExeOk;
    FilesKeep(exec, s, i, r0);
    WbkKeep(exec, s, i, r0);
    MemKeep(exec, s, i, r0);
    ExeKeep(exec, s, i, r0);
  }

  // ---------------------------------------------------------------------------------------
  // Runs

  ghost predicate IsRun(exec: Exec, ys: seq<State>, ins: seq<In>) {
    && |ys| == |ins| + 1
    && (forall k :: 0 <= k < |ys| ==> |ys[k].rf| == REGS)
    && (forall k :: 0 <= k < |ins| ==>
          ys[k + 1] == Next(exec, ys[k], ins[k]) && MemoryAnswers(exec, ys[k], ins[k]) && ins[k].dec.Decoded())
  }

  function Live(i: Inst): seq<Inst> { if i.live then [i] else [] }

  /** Instructions that have left WBK after n cycles, oldest first. */
  function Completed(ys: seq<State>, ins: seq<In>, n: nat): seq<Inst>
    requires n <= |ins| && n < |ys|
  {
    if n == 0 then []
    else Completed(ys, ins, n - 1) + (if ins[n - 1].dcStalled then [] else Live(ys[n - 1].wbk))
  }

  /** Instructions that have left EXE after n cycles. */
  function Issued(ys: seq<State>, ins: seq<In>, n: nat): seq<Inst>
    requires n <= |ins| && n < |ys|
  {
    if n == 0 then []
    else Issued(ys, ins, n - 1) + (if ExeAdvances(ys[n - 1], ins[n - 1]) then Live(ys[n - 1].exe) else [])
  }

  /** No instruction is lost, duplicated or reordered between EXE and completion. */
  lemma {:induction false} InOrder(exec: Exec, ys: seq<State>, ins: seq<In>, n: nat)
    requires IsRun(exec, ys, ins) && n <= |ins| && ys[0] == AfterReset(ys[0].rf)
    ensures Issued(ys, ins, n) == Completed(ys, ins, n) + Live(ys[n].wbk) + Live(ys[n].mem)
  {
    if n > 0 {
      hide Next, ExeAdvances;
      InOrder(exec, ys, ins, n - 1);
      SlotsMove(exec, ys[n - 1], ins[n - 1]);
      assert ys[n] == Next(exec, ys[n - 1], ins[n - 1]);
    }
  }

  lemma SlotsMove(exec: Exec, s: State, i: In)
    requires |s.rf| == REGS
    ensures var s' := Next(exec, s, i);
      && Live(s'.wbk) == (if i.dcStalled then Live(s.wbk) else Live(s.mem))
      && Live(s'.mem) == (if i.dcStalled then Live(s.mem) else if ExeAdvances(s, i) then Live(s.exe) else [])
      && (ExeAdvances(s, i) ==> !i.dcStalled)
  {
    hide WriteRf, NextExe, ExeResult, OpAR, OpBR, OpCR, OpCLate, Hazard;
  }

  lemma {:induction false} SequentialStep(exec: Exec, r: seq<Word>, insts: seq<Inst>, i: Inst)
    requires |r| == REGS && i.Decoded()
    ensures Sequential(exec, r, insts + Live(i)) == Execute(exec, Sequential(exec, r, insts), i)
  {
    hide Value;
    if i.live {
      var all := insts + [i];
      assert all[..|all| - 1] == insts;
    } else {
      assert insts + [] == insts;
    }
  }

  lemma {:induction false} RunKeeps(exec: Exec, ys: seq<State>, ins: seq<In>, n: nat)
    requires IsRun(exec, ys, ins) && n <= |ins| && ys[0] == AfterReset(ys[0].rf)
    ensures Inv(exec, ys[n], Sequential(exec, ys[0].rf, Completed(ys, ins, n)))
  {
    if n == 0 {
    } else {
      hide Next, Execute, AfterReset, Files, WbkOk, MemOk, ExeOk, MemoryAnswers;
      RunKeeps(exec, ys, ins, n - 1);
      var c, s, i := Completed(ys, ins, n - 1), ys[n - 1], ins[n - 1];
      var r := Sequential(exec, ys[0].rf, c);
      StepKeeps(exec, s, i, r);
      InvDecoded(exec, s, r);
      if i.dcStalled {
        assert c + [] == c;
      } else {
        SequentialStep(exec, ys[0].rf, c, s.wbk);
      }
    }
  }

  lemma InvDecoded(exec: Exec, s: State, r: seq<Word>)
    requires Inv(exec, s, r)
    ensures s.wbk.Decoded() && s.mem.Decoded() && s.exe.Decoded()
  {
  }

  /** For any in-order stream of instructions, any cache, divider and CSR stalls and any EXE flush, the
      operands an instruction leaves EXE with are those of a sequential machine that has executed
      every instruction that left EXE before it; a multiply or dot product leaves MEM with the
      sequential accumulator. */
  lemma ReadsAreSequential(exec: Exec, ys: seq<State>, ins: seq<In>, n: nat)
    requires IsRun(exec, ys, ins) && n < |ins| && ys[0] == AfterReset(ys[0].rf)
    ensures var r, s, i := Sequential(exec, ys[0].rf, Issued(ys, ins, n)), ys[n], ins[n];
      ExeAdvances(s, i) ==>
        && OpAR(s, i) == ReadA(r, s.exe) && OpBR(s, i) == ReadB(r, s.exe)
        && (!s.exe.mulSimd ==> OpCR(s, i) == ReadC(r, s.exe))
    ensures var r, s, i := Sequential(exec, ys[0].rf, Completed(ys, ins, n) + Live(ys[n].wbk)), ys[n], ins[n];
      MemAdvances(i) && s.mem.mulSimd ==> OpCLate(s, i) == ReadC(r, s.mem)
  {
    hide Next, Execute, AfterReset, Files, WbkOk, MemOk, ExeOk, MemoryAnswers, ReadA, ReadB, ReadC, OpAR, OpBR, OpCR, OpCLate;
    var c, s, i := Completed(ys, ins, n), ys[n], ins[n];
    RunKeeps(exec, ys, ins, n);
    InOrder(exec, ys, ins, n);
    var r0 := Sequential(exec, ys[0].rf, c);
    InvDecoded(exec, s, r0);
    SequentialStep(exec, ys[0].rf, c, s.wbk);
    SequentialStep(exec, ys[0].rf, c + Live(s.wbk), s.mem);
    if ExeAdvances(s, i) {
      OperandsSequential(exec, s, i, r0);
    }
    if MemAdvances(i) && s.mem.mulSimd {
      AccumulatorSequential(exec, s, i, r0);
    }
  }

  /** The register file, outside the registers the instruction in WBK is about to write, is what
      sequential execution of the completed instructions leaves. */
  lemma RegistersAreSequential(exec: Exec, ys: seq<State>, ins: seq<In>, n: nat, r: Reg)
    requires IsRun(exec, ys, ins) && n <= |ins| && ys[0] == AfterReset(ys[0].rf)
    ensures !Depends(r, ys[n].wbk) ==>
      ReadRf(ys[n].rf, r) == ReadRf(Sequential(exec, ys[0].rf, Completed(ys, ins, n)), r)
  {
    hide Next, Execute, AfterReset, WbkOk, MemOk, ExeOk, MemoryAnswers;
    RunKeeps(exec, ys, ins, n);
  }
}
