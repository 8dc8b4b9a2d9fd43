/** The data cache behind the pipeline: the first cycle without a stall brings the load in WBK its data,
    which is what the pipeline assumes of its memory. */
module PipelineMemory {
  import opened Options
  import opened PipelineModel
  import DCacheModel
  import DCacheProtocol
  import DCacheRefinement
  import FlatSpec
  import MemTypes
  import PipelineProof
  import RegFileModel

  type System = DCacheModel.System

  /** The request an instruction makes to the data cache, from its identity and its two address operands;
      none for instructions that access no memory or another region. */
  type Port = (nat, RegFileModel.Word, RegFileModel.Word) -> Option<MemTypes.Req>

  /** The number a little-endian word holds. */
  function Number(w: MemTypes.Word32): nat {
    var b0: nat, b1: nat, b2: nat, b3: nat := w[0], w[1], w[2], w[3];
    b0 + 0x100 * b1 + 0x1_0000 * b2 + 0x100_0000 * b3
  }

  function MemRequest(port: Port, s: State): Option<MemTypes.Req> {
    if s.mem.live then port(s.mem.op, s.memA, s.memB) else None
  }

  /** The wires between the stages and the cache in one cycle: the stall is the missing ready, the request
      of MEM is valid when there is no stall, a load in WBK takes the response if there is one. */
  ghost predicate Wired(port: Port, s: State, i: In, y: System, c: MemTypes.CoreIn)
    requires DCacheModel.WellFormed(y.c)
  {
    var r := MemRequest(port, s);
    && i.dcStalled == !DCacheModel.Ready(y.c)
    && c.valid == (r.Some? && !i.dcStalled) && (r.Some? ==> c.req == r.value)
    && (r.Some? && s.mem.load ==> !r.value.write)
    && (s.wbk.load && port(s.wbk.op, s.reqA, s.reqB).Some? ==>
        i.dmem == if DCacheModel.RspValid(y.c) then Number(DCacheModel.RspData(y.c)) else 0)
  }

  /** Memory as it is when cycle n begins: the initial one with every store accepted before. */
  ghost function MemoryAt(ys: seq<System>, ins: seq<MemTypes.CoreIn>, n: nat): MemTypes.Flat
    requires CacheRun(ys, ins) && n < |ys|
  {
    DCacheProtocol.AbsIsHistory(ys, ins, n);
    MemTypes.FlatAfter(DCacheRefinement.Bytes(ys[0].main), FlatSpec.Reqs(DCacheRefinement.Trace(ys[..n + 1], ins[..n])))
  }

  ghost predicate CacheRun(ys: seq<System>, ins: seq<MemTypes.CoreIn>) {
    && DCacheRefinement.IsRun(ys, ins) && DCacheRefinement.AlignedInputs(ins)
    && DCacheModel.AfterReset(ys[0].c) && !ys[0].rsp.valid
  }

  ghost predicate PipeRun(exec: Exec, ps: seq<State>, ins: seq<In>) {
    && |ps| == |ins| + 1 && (forall k :: 0 <= k < |ps| ==> |ps[k].rf| == RegFileModel.REGS)
    && ps[0] == AfterReset(ps[0].rf)
    && forall k :: 0 <= k < |ins| ==> ps[k + 1] == Next(exec, ps[k], ins[k]) && ins[k].dec.Decoded()
  }

  ghost predicate AllWired(port: Port, ps: seq<State>, pins: seq<In>, ys: seq<System>, cins: seq<MemTypes.CoreIn>)
    requires DCacheRefinement.IsRun(ys, cins) && |pins| == |cins| && |ps| == |ys|
  {
    forall k :: 0 <= k < |pins| ==> Wired(port, ps[k], pins[k], ys[k], cins[k])
  }

  /** A load means the flat memory's load, with all stores accepted before its own request. */
  ghost predicate LoadsMean(exec: Exec, ps: seq<State>, ys: seq<System>, cins: seq<MemTypes.CoreIn>)
    requires CacheRun(ys, cins) && |ps| == |ys|
  {
    forall k :: 0 <= k < |cins| && ps[k].mem.load && DCacheModel.NewReq(ys[k].c, cins[k]) ==>
      exec(ps[k].mem.op, ps[k].memA, ps[k].memB, ps[k].memC).0 == Number(MemTypes.LoadFrom(MemoryAt(ys, cins, k), cins[k].req))
  }

  /** The load in WBK left MEM at the last cycle without a stall. */
  lemma {:induction false} CameFromMem(exec: Exec, ps: seq<State>, pins: seq<In>, t: nat) returns (s: nat)
    requires PipeRun(exec, ps, pins) && t < |ps| && ps[t].wbk.load
    ensures s < t && !pins[s].dcStalled && forall k :: s < k < t ==> pins[k].dcStalled
    ensures ps[s].mem.live && ps[s].mem == ps[t].wbk
    ensures ps[s].memA == ps[t].reqA && ps[s].memB == ps[t].reqB && ps[s].memC == ps[t].reqC
    decreases t
  {
    hide Next;
    if t > 0 {
      WbkMoves(exec, ps[t - 1], pins[t - 1]);
      if pins[t - 1].dcStalled {
        s := CameFromMem(exec, ps, pins, t - 1);
      } else {
        s := t - 1;
      }
    }
  }

  lemma WbkMoves(exec: Exec, s: State, i: In)
    requires |s.rf| == RegFileModel.REGS
    ensures var s' := Next(exec, s, i);
      && (i.dcStalled ==> s'.wbk == s.wbk && s'.reqA == s.reqA && s'.reqB == s.reqB && s'.reqC == s.reqC)
      && (!i.dcStalled && s'.wbk.load ==>
          s.mem.live && s'.wbk == s.mem && s'.reqA == s.memA && s'.reqB == s.memB && s'.reqC == s.memC)
  {
    hide WriteRf, NextExe, ExeResult, OpAR, OpBR, OpCR, OpCLate, Hazard;
  }

  /** Loads from the cached region get their value in the first cycle without a stall. */
  lemma LoadServed(exec: Exec, port: Port, ps: seq<State>, pins: seq<In>, ys: seq<System>, cins: seq<MemTypes.CoreIn>, t: nat)
    requires PipeRun(exec, ps, pins) && CacheRun(ys, cins) && |pins| == |cins| && |ps| == |ys| && t < |pins|
    requires AllWired(port, ps, pins, ys, cins) && LoadsMean(exec, ps, ys, cins)
    requires ps[t].wbk.load && port(ps[t].wbk.op, ps[t].reqA, ps[t].reqB).Some?
    ensures MemoryAnswers(exec, ps[t], pins[t])
  {
    hide PipeRun, Next, Number, DCacheModel.Step, DCacheModel.Ready, DCacheModel.RspValid, DCacheModel.RspData, DCacheModel.AfterReset;
    if !pins[t].dcStalled {
      var s := CameFromMem(exec, ps, pins, t);
      assert Wired(port, ps[s], pins[s], ys[s], cins[s]) && Wired(port, ps[t], pins[t], ys[t], cins[t]);
      forall k | s < k < t
        ensures !DCacheModel.Ready(ys[k].c)
      {
        assert Wired(port, ps[k], pins[k], ys[k], cins[k]);
      }
      DCacheProtocol.AbsIsHistory(ys, cins, 0);
      DCacheProtocol.LoadAnswered(ys, cins, s, t);
      DCacheProtocol.AbsIsHistory(ys, cins, s);
    }
  }

  /** The pipeline's assumption about its memory holds with the data cache attached: every run of both
      together is a run to which the sequential-reads theorem applies. Loads from other regions are
      answered by their devices. */
  lemma CacheServesPipeline(exec: Exec, port: Port, ps: seq<State>, pins: seq<In>, ys: seq<System>, cins: seq<MemTypes.CoreIn>)
    requires PipeRun(exec, ps, pins) && CacheRun(ys, cins) && |pins| == |cins| && |ps| == |ys|
    requires AllWired(port, ps, pins, ys, cins) && LoadsMean(exec, ps, ys, cins)
    requires forall k :: 0 <= k < |pins| && port(ps[k].wbk.op, ps[k].reqA, ps[k].reqB).None? ==> MemoryAnswers(exec, ps[k], pins[k])
    ensures PipelineProof.IsRun(exec, ps, pins)
  {
    hide Next, MemoryAnswers, CacheRun, AllWired, LoadsMean;
    forall k | 0 <= k < |pins|
      ensures MemoryAnswers(exec, ps[k], pins[k])
    {
      if port(ps[k].wbk.op, ps[k].reqA, ps[k].reqB).Some? {
        if ps[k].wbk.load {
          LoadServed(exec, port, ps, pins, ys, cins, k);
        } else {
          NoLoad(exec, ps[k], pins[k]);
        }
      }
    }
  }

  lemma NoLoad(exec: Exec, s: State, i: In)
    requires !s.wbk.load
    ensures MemoryAnswers(exec, s, i)
  {
  }
}
