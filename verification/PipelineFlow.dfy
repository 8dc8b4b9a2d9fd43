/** The way from decode through EXE: which instructions enter, when one waits, and that nothing else is
    lost, invented or held back. */
module PipelineFlow {
  import opened PipelineModel
  import opened PipelineProof
  import opened RegFileModel

  // ---------------------------------------------------------------------------------------
  // When EXE waits

  /** Registers an instruction needs in EXE; multiply and dot products take the third one in MEM. */
  function Needs(i: Inst): set<Reg> { ({i.rs1, i.rs2} + if i.mulSimd then {} else {i.rs3}) - {0} }

  /** Registers an instruction will write. */
  function Targets(i: Inst): set<Reg> { ((if i.we then {i.rd} else {}) + if i.rdp then {Pair(i.rd)} else {}) - {0} }

  /** EXE waits for a stalled cache, the divider or the CSRs, and for a result that the instruction in MEM
      does not have yet and EXE needs. */
  predicate Waits(s: State, i: In) {
    || i.dcStalled || i.divStalled || i.csrStalled
    || ((s.mem.load || s.mem.mulSimd) && Needs(s.exe) * Targets(s.mem) != {})
  }

  lemma NeedsTarget(e: Inst, m: Inst)
    ensures Needs(e) * Targets(m) != {} <==>
      Depends(e.rs1, m) || Depends(e.rs2, m) || (Depends(e.rs3, m) && !e.mulSimd)
  {
    forall r: Reg
      ensures r in Targets(m) <==> Depends(r, m)
    {
    }
    if Depends(e.rs1, m) {
      assert e.rs1 in Needs(e) * Targets(m);
    } else if Depends(e.rs2, m) {
      assert e.rs2 in Needs(e) * Targets(m);
    } else if Depends(e.rs3, m) && !e.mulSimd {
      assert e.rs3 in Needs(e) * Targets(m);
    } else {
      assert Needs(e) * Targets(m) == {};
    }
  }

  /** An instruction leaves EXE exactly when it is not flushed and need not wait; decode hands over exactly
      then, too. */
  lemma LeavesExactly(s: State, i: In)
    ensures ExeAdvances(s, i) <==> !i.bubbleExe && !Waits(s, i)
    ensures DecExe(s, i).en <==> !Waits(s, i)
  {
    hide Needs, Targets;
    NeedsTarget(s.exe, s.mem);
  }

  // ---------------------------------------------------------------------------------------
  // What enters

  /** Instructions that have left EXE and the one in it. */
  datatype Flow = Flow(left: seq<Inst>, inExe: Inst)

  /** A flush drops the instruction in EXE; otherwise, unless EXE waits, it leaves and the instruction in
      decode, or the bubble the front end asks for, takes its place. */
  function FlowStep(f: Flow, s: State, i: In): Flow {
    if i.bubbleExe then f.(inExe := BUBBLE)
    else if Waits(s, i) then f
    else Flow(f.left + Live(f.inExe), if i.bubbleDec then BUBBLE else i.dec)
  }

  function Entered(ys: seq<State>, ins: seq<In>, n: nat): Flow
    requires n <= |ins| && n < |ys|
  {
    if n == 0 then Flow([], BUBBLE) else FlowStep(Entered(ys, ins, n - 1), ys[n - 1], ins[n - 1])
  }

  /** Over every run from reset the instruction in EXE is the one that decode handed over last and that was
      not flushed, and what has left EXE is everything handed over before it and not flushed, in order. */
  lemma {:induction false} EnteredIsIssued(exec: Exec, ys: seq<State>, ins: seq<In>, n: nat)
    requires IsRun(exec, ys, ins) && n <= |ins| && ys[0] == AfterReset(ys[0].rf)
    ensures Entered(ys, ins, n) == Flow(Issued(ys, ins, n), ys[n].exe)
  {
    if n > 0 {
      hide Next, ExeAdvances, Waits;
      EnteredIsIssued(exec, ys, ins, n - 1);
      LeavesExactly(ys[n - 1], ins[n - 1]);
      ExeTaken(exec, ys[n - 1], ins[n - 1]);
      assert ys[n] == Next(exec, ys[n - 1], ins[n - 1]);
      assert Issued(ys, ins, n - 1) + [] == Issued(ys, ins, n - 1);
    }
  }

  lemma ExeTaken(exec: Exec, s: State, i: In)
    requires |s.rf| == REGS
    ensures Next(exec, s, i).exe ==
      if i.bubbleExe then BUBBLE else if !DecExe(s, i).en then s.exe else if i.bubbleDec then BUBBLE else i.dec
  {
    hide WriteRf, ExeResult, OpAR, OpBR, OpCR, OpCLate, OpADec, OpBDec, OpCDec, Hazard, Loaded;
  }

  /** EXE waits for the instruction in MEM at most one cycle: the next cycle without a stall moves it on. */
  lemma WaitsOnce(exec: Exec, s: State, i: In, j: In)
    requires |s.rf| == REGS && !i.bubbleExe && !j.bubbleExe
    requires !i.dcStalled && !i.divStalled && !i.csrStalled && !j.dcStalled && !j.divStalled && !j.csrStalled
    ensures ExeAdvances(s, i) || (Next(exec, s, i).exe == s.exe && ExeAdvances(Next(exec, s, i), j))
  {
    hide WriteRf, ExeResult, OpAR, OpBR, OpCR, OpCLate, OpADec, OpBDec, OpCDec;
  }
}
