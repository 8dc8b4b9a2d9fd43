/** The stage registers of the pipeline's back half, updated in place at each clock edge. */
module PipelineRtl {
  import opened RegFileModel
  import opened PipelineModel

  /** The combinational values an edge depends on. */
  datatype Sensed = Sensed(a: Word, b: Word, c: Word, late: Word, da: Word, db: Word, dc: Word,
                           wb: Word, wbp: Word, en: bool, bubble: bool)

  function SensedOf(s: State, i: In): Sensed
    requires |s.rf| == REGS
  {
    Sensed(OpAR(s, i), OpBR(s, i), OpCR(s, i), OpCLate(s, i), OpADec(s, i), OpBDec(s, i), OpCDec(s, i),
           WriteBackValue(s, i), WriteBackPair(s), DecExe(s, i).en, ExeMem(s, i).bubble)
  }

  datatype MemRegs = MemRegs(mem: Inst, a: Word, b: Word, c: Word, ewb: Word, ewbP: Word, fmtEn: bool)
  datatype WbkRegs = WbkRegs(wbk: Inst, ewb: Word, ewbP: Word, simd: (Word, Word), a: Word, b: Word, c: Word)

  function Assemble(rf: seq<Word>, e: ExeRegs, m: MemRegs, w: WbkRegs): State {
    State(rf, e.exe, e.a, e.b, e.c, m.mem, m.a, m.b, m.c, m.ewb, m.ewbP, m.fmtEn, w.wbk, w.ewb, w.ewbP, w.simd, w.a, w.b, w.c)
  }
  function ExeOf(s: State): ExeRegs { ExeRegs(s.exe, s.opA, s.opB, s.opC) }
  function MemOf(s: State): MemRegs { MemRegs(s.mem, s.memA, s.memB, s.memC, s.ewbMem, s.ewbPMem, s.fmtEnMem) }
  function WbkOf(s: State): WbkRegs { WbkRegs(s.wbk, s.ewbWbk, s.ewbPWbk, s.simdWbk, s.reqA, s.reqB, s.reqC) }

  function ExeFrom(e: ExeRegs, i: In, x: Sensed): ExeRegs {
    ExeRegs(if i.bubbleExe then BUBBLE else if x.en then (if i.bubbleDec then BUBBLE else i.dec) else e.exe,
            if i.bubbleExe then 0 else if x.bubble then x.a else if i.bubbleDec then 0 else x.da,
            if i.bubbleExe then 0 else if x.bubble then x.b else if i.bubbleDec then 0 else x.db,
            if i.bubbleExe then 0 else if x.bubble then x.c else if i.bubbleDec then 0 else x.dc)
  }

  function MemFrom(exec: Exec, exe: Inst, m: MemRegs, i: In, x: Sensed): MemRegs {
    var em := Stage(false, !i.dcStalled, x.bubble);
    var r := if exe.wb.Ewb? then exec(exe.op, x.a, x.b, x.c) else (i.early, i.early);
    MemRegs(
      Loaded(em, true, exe, m.mem, BUBBLE),
      Loaded(em, true, x.a, m.a, 0), Loaded(em, true, x.b, m.b, 0), Loaded(em, true, x.c, m.c, 0),
      Loaded(em, exe.we, r.0, m.ewb, 0), Loaded(em, exe.fmt, r.1, m.ewbP, 0), Loaded(em, exe.fmt, true, m.fmtEn, false))
  }

  function WbkFrom(exec: Exec, m: MemRegs, w: WbkRegs, i: In, x: Sensed): WbkRegs {
    var mw := Stage(false, !i.dcStalled, !m.mem.live);
    WbkRegs(
      Loaded(mw, true, m.mem, w.wbk, BUBBLE),
      Loaded(mw, m.mem.we, m.ewb, w.ewb, 0), Loaded(mw, m.fmtEn, m.ewbP, w.ewbP, 0),
      Loaded(mw, m.mem.mulSimd, exec(m.mem.op, m.a, m.b, x.late), w.simd, (0, 0)),
      Loaded(mw, true, m.a, w.a, 0), Loaded(mw, true, m.b, w.b, 0), Loaded(mw, true, m.c, w.c, 0))
  }

  function NextFrom(exec: Exec, s: State, i: In, x: Sensed): State
    requires |s.rf| == REGS
  {
    Assemble(WriteRf(s.rf, s.wbk, x.wb, x.wbp), ExeFrom(ExeOf(s), i, x), MemFrom(exec, s.exe, MemOf(s), i, x),
             WbkFrom(exec, MemOf(s), WbkOf(s), i, x))
  }

  lemma SensedNext(exec: Exec, s: State, i: In)
    requires |s.rf| == REGS
    ensures Next(exec, s, i) == NextFrom(exec, s, i, SensedOf(s, i))
  {
    hide OpAR, OpBR, OpCR, OpCLate, OpADec, OpBDec, OpCDec, WriteBackValue, WriteBackPair, WriteRf, Loaded, Hazard;
  }

  class BackEnd {
    const rf: array<Word>
    var exe: Inst
    var opA: Word
    var opB: Word
    var opC: Word
    var mem: Inst
    var memA: Word
    var memB: Word
    var memC: Word
    var ewbMem: Word
    var ewbPMem: Word
    var fmtEnMem: bool
    var wbk: Inst
    var ewbWbk: Word
    var ewbPWbk: Word
    var simdWbk: (Word, Word)
    var reqA: Word
    var reqB: Word
    var reqC: Word

    ghost function ExeView(): ExeRegs
      reads this`exe, this`opA, this`opB, this`opC
    {
      ExeRegs(exe, opA, opB, opC)
    }
    ghost function MemView(): MemRegs
      reads this`mem, this`memA, this`memB, this`memC, this`ewbMem, this`ewbPMem, this`fmtEnMem
    {
      MemRegs(mem, memA, memB, memC, ewbMem, ewbPMem, fmtEnMem)
    }
    ghost function WbkView(): WbkRegs
      reads this`wbk, this`ewbWbk, this`ewbPWbk, this`simdWbk, this`reqA, this`reqB, this`reqC
    {
      WbkRegs(wbk, ewbWbk, ewbPWbk, simdWbk, reqA, reqB, reqC)
    }

    ghost function View(): State
      reads this, rf
    {
      Assemble(rf[..], ExeView(), MemView(), WbkView())
    }

    lemma ViewParts()
      ensures View() == Assemble(rf[..], ExeView(), MemView(), WbkView())
      ensures View().rf == rf[..] && View().exe == exe && View().wbk == wbk
      ensures ExeOf(View()) == ExeView() && MemOf(View()) == MemView() && WbkOf(View()) == WbkView()
    {
    }

    ghost predicate Valid()
      reads this, rf
    {
      rf.Length == REGS
    }

    constructor ()
      ensures Valid() && fresh(rf) && View() == AfterReset(View().rf)
    {
      rf := new Word[REGS];
      exe, mem, wbk := BUBBLE, BUBBLE, BUBBLE;
      opA, opB, opC, memA, memB, memC := 0, 0, 0, 0, 0, 0;
      ewbMem, ewbPMem, fmtEnMem, ewbWbk, ewbPWbk, simdWbk := 0, 0, false, 0, 0, (0, 0);
      reqA, reqB, reqC := 0, 0, 0;
    }

    /** The write-back bus. */
    method WriteBackBus(i: In) returns (v: Word, p: Word)
      ensures v == WriteBackValue(View(), i) && p == WriteBackPair(View())
    {
      if wbk.wb.Ewb? {
        v := ewbWbk;
      } else if wbk.wb.Dmem? {
        v := i.dmem;
      } else {
        v := simdWbk.0;
      }
      p := if wbk.wb.Simd? then simdWbk.1 else ewbPWbk;
    }

    /** Operand mux in EXE: the younger writer wins, the pair by its own match. */
    method Resolve(i: In, rs: Reg, held: Word) returns (v: Word)
      ensures v == if ForwardExe(rs, View()) then Forwarded(SourceExe(rs, View()), View(), i) else held
    {
      var wb, wbp := WriteBackBus(i);
      if Depends(rs, mem) {
        v := if OnPair(rs, mem) then ewbPMem else ewbMem;
      } else if Depends(rs, wbk) {
        v := if OnPair(rs, wbk) then wbp else wb;
      } else {
        v := held;
      }
    }

    /** Mux fed from WBK only: operands in decode, the accumulator in MEM. */
    method ResolveLate(i: In, rs: Reg, held: Word) returns (v: Word)
      ensures v == if ForwardLate(rs, View()) then Forwarded(SourceLate(rs, View()), View(), i) else held
    {
      var wb, wbp := WriteBackBus(i);
      v := if OnPair(rs, wbk) then wbp else if On(rs, wbk) then wb else held;
    }

    method ReadPort(rs: Reg) returns (v: Word)
      requires Valid()
      ensures v == ReadRf(rf[..], rs)
    {
      v := if rs == 0 then 0 else rf[rs];
    }

    /** Operands read in decode. */
    method DecodeOperands(i: In) returns (a: Word, b: Word, c: Word)
      requires Valid()
      ensures a == OpADec(View(), i) && b == OpBDec(View(), i) && c == OpCDec(View(), i)
    {
      var p1 := ReadPort(i.dec.rs1);
      var p2 := ReadPort(i.dec.rs2);
      var p3 := ReadPort(i.dec.rs3);
      a := ResolveLate(i, i.dec.rs1, p1);
      b := ResolveLate(i, i.dec.rs2, p2);
      c := ResolveLate(i, i.dec.rs3, p3);
      if !i.dec.a.Register? {
        a := i.dec.a.value;
      }
      if !i.dec.b.Register? {
        b := i.dec.b.value;
      }
    }

    method FindHazard(i: In) returns (h: bool)
      ensures h == Hazard(View(), i)
    {
      var onMem := Depends(exe.rs1, mem) || Depends(exe.rs2, mem) || (Depends(exe.rs3, mem) && !exe.mulSimd);
      var onWbk := Depends(exe.rs1, wbk) || Depends(exe.rs2, wbk) || Depends(exe.rs3, wbk);
      h := ((mem.load || mem.mulSimd) && onMem) || (wbk.load && i.dcStalled && onWbk);
    }

    method ClockRf(v: Word, p: Word)
      requires Valid()
      modifies rf
      ensures rf[..] == WriteRf(old(rf[..]), wbk, v, p)
    {
      if wbk.we && wbk.rd != 0 {
        rf[wbk.rd] := v;
        if wbk.rdp && Pair(wbk.rd) != 0 {
          rf[Pair(wbk.rd)] := p;
        }
      }
    }

    /** MEM to WBK. */
    method ClockWbk(exec: Exec, i: In, x: Sensed)
      modifies this`wbk, this`ewbWbk, this`ewbPWbk, this`simdWbk, this`reqA, this`reqB, this`reqC
      ensures WbkView() == WbkFrom(exec, old(MemView()), old(WbkView()), i, x)
    {
      if !i.dcStalled {
        var live := mem.live;
        wbk := if live then mem else BUBBLE;
        reqA, reqB, reqC := if live then memA else 0, if live then memB else 0, if live then memC else 0;
        if mem.we {
          ewbWbk := if live then ewbMem else 0;
        }
        if fmtEnMem {
          ewbPWbk := if live then ewbPMem else 0;
        }
        if mem.mulSimd {
          simdWbk := if live then exec(mem.op, memA, memB, x.late) else (0, 0);
        }
      }
    }

    /** EXE to MEM with the resolved operands. */
    method ClockMem(exec: Exec, i: In, x: Sensed)
      modifies this`mem, this`memA, this`memB, this`memC, this`ewbMem, this`ewbPMem, this`fmtEnMem
      ensures MemView() == MemFrom(exec, exe, old(MemView()), i, x)
    {
      if !i.dcStalled {
        var r := if exe.wb.Ewb? then exec(exe.op, x.a, x.b, x.c) else (i.early, i.early);
        mem := if x.bubble then BUBBLE else exe;
        memA, memB, memC := if x.bubble then 0 else x.a, if x.bubble then 0 else x.b, if x.bubble then 0 else x.c;
        if exe.we {
          ewbMem := if x.bubble then 0 else r.0;
        }
        if exe.fmt {
          ewbPMem, fmtEnMem := if x.bubble then 0 else r.1, !x.bubble;
        }
      }
    }

    /** DEC to EXE: flushed, held with its operands resolved so far, or loaded from decode. */
    method ClockExe(i: In, x: Sensed)
      requires !x.en ==> x.bubble
      modifies this`exe, this`opA, this`opB, this`opC
      ensures ExeView() == ExeFrom(old(ExeView()), i, x)
    {
      if i.bubbleExe {
        opA, opB, opC := 0, 0, 0;
      } else if x.bubble {
        opA, opB, opC := x.a, x.b, x.c;
      } else if i.bubbleDec {
        opA, opB, opC := 0, 0, 0;
      } else {
        opA, opB, opC := x.da, x.db, x.dc;
      }
      if i.bubbleExe || (x.en && i.bubbleDec) {
        exe := BUBBLE;
      } else if x.en {
        exe := i.dec;
      }
    }

    /** All resolved values, before any register changes. */
    method Sense(i: In) returns (x: Sensed)
      requires Valid()
      ensures x == SensedOf(View(), i)
    {
      hide Forwarded, SourceExe, SourceLate, WriteBackValue, WriteBackPair, Hazard, Depends, ForwardExe, ForwardLate;
      var a := Resolve(i, exe.rs1, opA);
      var b := Resolve(i, exe.rs2, opB);
      var c := Resolve(i, exe.rs3, opC);
      var late := ResolveLate(i, mem.rs3, memC);
      var da, db, dc := DecodeOperands(i);
      var hazard := FindHazard(i);
      var wb, wbp := WriteBackBus(i);
      var en := !i.dcStalled && !hazard && !i.divStalled && !i.csrStalled;
      x := Sensed(a, b, c, late, da, db, dc, wb, wbp, en, !en || hazard || i.bubbleExe || i.divStalled || i.csrStalled);
    }

    /** All registers take their new values, the oldest stage first. */
    method Update(exec: Exec, i: In, x: Sensed)
      requires Valid() && (!x.en ==> x.bubble)
      modifies this, rf
      ensures Valid() && View() == NextFrom(exec, old(View()), i, x)
    {
      hide WriteRf, MemFrom, ExeFrom, WbkFrom, Assemble;
      ViewParts();
      hide View, ExeView, MemView, WbkView;
      ClockRf(x.wb, x.wbp);
      ClockWbk(exec, i, x);
      ClockMem(exec, i, x);
      ClockExe(i, x);
      ViewParts();
    }

    /** One clock edge. */
    method Clock(exec: Exec, i: In)
      requires Valid()
      modifies this, rf
      ensures Valid() && View() == Next(exec, old(View()), i)
    {
      hide Next, NextFrom, OpAR, OpBR, OpCR, OpCLate, OpADec, OpBDec, OpCDec, WriteBackValue, WriteBackPair, Hazard;
      var x := Sense(i);
      SensedNext(exec, View(), i);
      Update(exec, i, x);
    }
  }
}
