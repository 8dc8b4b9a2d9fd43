/** Data cache: what each miss does on the main memory port, and for how long the core waits. */
module DCacheProtocol {
  import opened Options
  import opened BitSlices
  import opened MemTypes
  import opened FlatSpec
  import opened DCacheModel
  import opened DCacheInvariant
  import opened DCacheRefinement

  datatype MemOp = WriteBeat(addr: nat, data: Quad) | ReadBeat(raddr: nat)

  /** The memory port in one cycle. */
  function OpsOf(y: System, i: CoreIn): seq<MemOp>
    requires WellFormed(y.c)
  {
    var w := MemW(y.c, i);
    var r := MemR(y.c);
    (if w.Some? then [WriteBeat(w.value.addr, w.value.data)] else []) +
    (if r.Some? then [ReadBeat(r.value)] else [])
  }

  /** Outside a miss the memory port is silent; a write and a read never share a cycle. */
  lemma PortDiscipline(y: System, i: CoreIn)
    requires Ok(y)
    ensures |OpsOf(y, i)| <= 1
    ensures OpsOf(y, i) != [] ==> !Ready(y.c) && y.c.pend.active
  {
  }

  // ---------------------------------------------------------------------------------------
  // The schedule of a miss

  /** A miss: the request and, as they were when it was accepted, the victim and its line. */
  datatype MissInfo = MissInfo(req: Req, dirty: bool, way: nat, set_: nat, line: nat, data: seq<Quad>)

  function InfoOf(y: System, r: Req): MissInfo
    requires WellFormed(y.c)
  {
    var s, x, v := y.c, SetIdx(r.addr, y.c.geo), CrVictim(y.c, r);
    MissInfo(r, s.dirty[v][x], v, x, Join(s.tag[v][x], x, s.geo.idxBits),
             [Beat(s.bank[v], x, 0), Beat(s.bank[v], x, 1), Beat(s.bank[v], x, 2), Beat(s.bank[v], x, 3)])
  }

  /** Cycles for which the core is held off. */
  function Latency(m: MissInfo): nat { if m.dirty then 10 else 6 }

  /** What the memory port carries t cycles after the miss was accepted: the victim's line if it is
      dirty, one beat a cycle, then the missed line, one beat a cycle. */
  function Schedule(m: MissInfo, t: nat): seq<MemOp>
    requires |m.data| == 4
  {
    var u: int := if m.dirty then t - 5 else t - 1;
    if m.dirty && 1 <= t <= 4 then [WriteBeat(4 * m.line + t - 1, m.data[t - 1])]
    else if 0 <= u < 4 then [ReadBeat(4 * LineOf(m.req.addr) + u)]
    else []
  }

  function VictimLine(s: Cache): nat requires WellFormed(s) {
    Join(s.tag[s.pend.way][PendSet(s)], PendSet(s), s.geo.idxBits)
  }

  /** Before the victim has left, its way still holds the line that is written back. */
  ghost predicate HoldsVictim(y: System, m: MissInfo) requires WellFormed(y.c) && |m.data| == 4 {
    && VictimLine(y.c) == m.line
    && forall k :: 0 <= k < 4 ==> Beat(y.c.bank[y.c.pend.way], PendSet(y.c), k) == m.data[k]
  }

  /** Where the cache is t cycles after accepting the miss. */
  ghost predicate PhaseAt(y: System, m: MissInfo, t: nat) requires WellFormed(y.c) && |m.data| == 4 {
    var s := y.c;
    var u: int := if m.dirty then t - 6 else t - 2;
    && s.pend.active && s.pend.req == m.req
    && if t == 1 then s.fsm.DcReady? && MissD(s) && s.victimDirtyD == m.dirty && (m.dirty ==> HoldsVictim(y, m))
       else if u < 0 then s.fsm.DcEvict? && s.memCntD == t - 2 && HoldsVictim(y, m)
       else if u < 4 then s.fsm.DcMiss? && !s.doneD && s.memCntD == u
       else s.fsm.DcMiss? && s.doneD
  }

  /** What an eviction cycle knows about its registers. */
  lemma EvictRegs(y: System)
    requires Ok(y) && y.c.fsm.DcEvict?
    ensures var s := y.c;
      && s.pend.active && !s.clearOnRead && s.memCnt == (s.memCntD + 1) % 4 && s.pend.startAddr == StartAddr(s.pend.req.addr)
      && VictimLine(s) < MEM_LINES
      && (s.memCntD < 3 ==> s.dout[s.pend.way] == Beat(s.bank[s.pend.way], PendSet(s), s.memCnt))
  {
    hide Low, High, Join, Pow2, BusAddr, LookupWay, VictimWay, TagHit, CrWay;
  }

  lemma EvictOps(y: System, i: CoreIn, m: MissInfo)
    requires Ok(y) && |m.data| == 4 && y.c.fsm.DcEvict? && y.c.pend.req == m.req && HoldsVictim(y, m)
    ensures OpsOf(y, i) == if y.c.memCntD < 3 then [WriteBeat(4 * m.line + y.c.memCntD + 1, m.data[y.c.memCntD + 1])]
                           else [ReadBeat(4 * LineOf(m.req.addr))]
  {
    OkFormed(y);
    hide Low, High, Join, Pow2, BusAddr, LookupWay, VictimWay, TagHit, CrWay, Ok, WellFormed;
    var s := y.c;
    EvictRegs(y);
    AddrLine(s.pend.req.addr, s.geo);
    BeatAddr(VictimLine(s), s.memCnt);
  }

  lemma OkFormed(y: System)
    requires Ok(y)
    ensures WellFormed(y.c)
  {
  }

  lemma RefillOps(y: System, i: CoreIn)
    requires Ok(y) && y.c.fsm.DcMiss? && !y.c.doneD
    ensures OpsOf(y, i) == if y.c.memCntD < 3 then [ReadBeat(4 * LineOf(y.c.pend.req.addr) + y.c.memCntD + 1)] else []
  {
    hide Low, High, Join, Pow2, BusAddr;
    var line := LineOf(y.c.pend.req.addr);
    assert MemW(y.c, i).None?;
    if y.c.memCntD < 3 {
      assert y.c.memCnt == y.c.memCntD + 1;
      assert y.c.pend.startAddr == 4 * line by {
        AddrLine(y.c.pend.req.addr, y.c.geo);
      }
      BeatAddr(line, y.c.memCnt);
    }
  }

  lemma CompleteOps(y: System, i: CoreIn)
    requires Ok(y) && y.c.fsm.DcMiss? && y.c.doneD
    ensures OpsOf(y, i) == []
  {
  }

  lemma MissStartOps(y: System, i: CoreIn, m: MissInfo)
    requires Ok(y) && |m.data| == 4 && y.c.fsm.DcReady? && MissD(y.c) && y.c.victimDirtyD == m.dirty
    requires y.c.pend.req == m.req && (m.dirty ==> HoldsVictim(y, m))
    ensures OpsOf(y, i) == if m.dirty then [WriteBeat(4 * m.line, m.data[0])] else [ReadBeat(4 * LineOf(m.req.addr))]
  {
    hide Low, High, Join, Pow2, BusAddr;
    var s := y.c;
    AddrLine(s.pend.req.addr, s.geo);
    if m.dirty {
      assert s.dirty[s.pend.way][PendSet(s)];
      BeatAddr(VictimLine(s), 0);
      assert s.dout[s.pend.way] == Beat(s.bank[s.pend.way], PendSet(s), 0);
    }
  }

  lemma PhaseOps(y: System, i: CoreIn, m: MissInfo, t: nat)
    requires Ok(y) && |m.data| == 4 && 1 <= t <= Latency(m) && PhaseAt(y, m, t)
    ensures !Ready(y.c) && OpsOf(y, i) == Schedule(m, t)
  {
    hide Low, High, Join, Pow2, BusAddr;
    if y.c.fsm.DcEvict? {
      EvictOps(y, i, m);
    } else if y.c.fsm.DcMiss? {
      if y.c.doneD {
        CompleteOps(y, i);
      } else {
        RefillOps(y, i);
      }
    } else {
      MissStartOps(y, i, m);
    }
  }

  lemma EdgePhase(y: System, m: MissInfo, t: nat, y': System)
    requires Ok(y) && WellFormed(y'.c) && |m.data| == 4 && 1 <= t < Latency(m) && PhaseAt(y, m, t)
    requires y.c.fsm.DcEvict? ==> EvictEdge(y, y')
    requires y.c.fsm.DcMiss? ==> RefillEdge(y, y')
    requires y.c.fsm.DcReady? ==> MissStartEdge(y, y')
    ensures PhaseAt(y', m, t + 1)
  {
    hide Low, High, Join, Pow2, BusAddr;
  }

  lemma PhaseStep(y: System, i: CoreIn, m: MissInfo, t: nat)
    requires Ok(y) && |m.data| == 4 && 1 <= t < Latency(m) && PhaseAt(y, m, t)
    ensures PhaseAt(Step(y, i), m, t + 1)
  {
    hide Low, High, Join, Pow2, BusAddr;
    if y.c.fsm.DcEvict? {
      EvictStep(y, i);
    } else if y.c.fsm.DcMiss? {
      RefillStep(y, i);
    } else {
      MissStartStep(y, i);
    }
    EdgePhase(y, m, t, Step(y, i));
  }

  lemma PhaseFirst(y: System, i: CoreIn)
    requires Ok(y) && Miss(y.c, i)
    ensures PhaseAt(Step(y, i), InfoOf(y, i.req), 1)
  {
    hide Low, High, Join, Pow2, BusAddr;
    IdleStep(y, i);
  }

  lemma PhaseLast(y: System, i: CoreIn, m: MissInfo)
    requires Ok(y) && |m.data| == 4 && PhaseAt(y, m, Latency(m))
    ensures Ready(Step(y, i).c) && RspValid(Step(y, i).c) == !m.req.write
  {
    hide Low, High, Join, Pow2, BusAddr;
    CompleteStep(y, i);
  }

  lemma {:induction false} PhasesFollow(ys: seq<System>, ins: seq<CoreIn>, m: MissInfo, t: nat)
    requires IsRun(ys, ins) && AlignedInputs(ins) && Ok(ys[0]) && ins != []
    requires Miss(ys[0].c, ins[0]) && m == InfoOf(ys[0], ins[0].req)
    requires 1 <= t <= Latency(m) && t < |ys|
    ensures Ok(ys[t]) && PhaseAt(ys[t], m, t)
  {
    hide Step, Low, High, Join, Pow2, BusAddr;
    RunOk(ys, ins, t);
    if t == 1 {
      PhaseFirst(ys[0], ins[0]);
    } else {
      PhasesFollow(ys, ins, m, t - 1);
      PhaseStep(ys[t - 1], ins[t - 1], m, t - 1);
    }
  }

  /** While the cache is not ready, nothing is accepted, answered or changed for the core. */
  lemma StalledKeepsSpec(y: System, i: CoreIn)
    requires Ok(y) && (i.valid ==> Aligned(i.req)) && !Ready(y.c)
    ensures Ok(Step(y, i)) && SpecOf(Step(y, i)) == SpecOf(y)
  {
    hide Step, Low, High, Join, Pow2, BusAddr;
    StepRefines(y, i);
  }

  lemma {:induction false} MissKeepsSpec(ys: seq<System>, ins: seq<CoreIn>, m: MissInfo, t: nat)
    requires IsRun(ys, ins) && AlignedInputs(ins) && Ok(ys[0]) && ins != []
    requires Miss(ys[0].c, ins[0]) && m == InfoOf(ys[0], ins[0].req)
    requires 1 <= t <= Latency(m) + 1 && t < |ys|
    ensures Ok(ys[1]) && Ok(ys[t]) && SpecOf(ys[t]) == SpecOf(ys[1])
  {
    hide Step, Low, High, Join, Pow2, BusAddr;
    RunOk(ys, ins, 1);
    RunOk(ys, ins, t);
    if t > 1 {
      MissKeepsSpec(ys, ins, m, t - 1);
      PhasesFollow(ys, ins, m, t - 1);
      PhaseOps(ys[t - 1], ins[t - 1], m, t - 1);
      StalledKeepsSpec(ys[t - 1], ins[t - 1]);
    }
  }

  /** Every accepted miss, whatever the core drives meanwhile: the memory port carries exactly the
      scheduled beats, the core is held off for exactly 6 cycles (clean victim) or 10 (dirty), and
      in the next cycle the cache is ready and a load is answered with its flat-memory value. */
  lemma MissProtocol(ys: seq<System>, ins: seq<CoreIn>)
    requires IsRun(ys, ins) && AlignedInputs(ins) && ins != []
    requires Ok(ys[0]) && Miss(ys[0].c, ins[0])
    requires |ins| == Latency(InfoOf(ys[0], ins[0].req)) + 1
    ensures var r := ins[0].req;
      var m := InfoOf(ys[0], r);
      var end := ys[|ins|];
      && (forall t :: 1 <= t < |ins| ==> !Ready(ys[t].c) && OpsOf(ys[t], ins[t]) == Schedule(m, t))
      && Ok(end) && Ready(end.c) && RspValid(end.c) == !r.write
      && Abs(end) == (if r.write then StoreTo(Abs(ys[0]), r) else Abs(ys[0]))
      && (!r.write ==> RspData(end.c) == LoadFrom(Abs(ys[0]), r))
  {
    hide Step, Low, High, Join, Pow2, BusAddr;
    var m := InfoOf(ys[0], ins[0].req);
    var n := Latency(m);
    forall t | 1 <= t < |ins|
      ensures !Ready(ys[t].c) && OpsOf(ys[t], ins[t]) == Schedule(m, t)
    {
      PhasesFollow(ys, ins, m, t);
      PhaseOps(ys[t], ins[t], m, t);
    }
    PhasesFollow(ys, ins, m, n);
    PhaseLast(ys[n], ins[n], m);
    StepRefines(ys[0], ins[0]);
    MissKeepsSpec(ys, ins, m, n + 1);
    MissAnswered(ys[0], ins[0], ys[1], ys[n + 1]);
  }

  lemma MissAnswered(y: System, i: CoreIn, y1: System, end: System)
    requires Ok(y) && Ok(y1) && Ok(end) && NewReq(y.c, i) && Refines(y, i, y1)
    requires SpecOf(end) == SpecOf(y1) && RspValid(end.c) == !i.req.write
    ensures Aligned(i.req)
    ensures Abs(end) == (if i.req.write then StoreTo(Abs(y), i.req) else Abs(y))
    ensures !i.req.write ==> RspData(end.c) == LoadFrom(Abs(y), i.req)
  {
  }

  // ---------------------------------------------------------------------------------------
  // When the cache is ready

  /** A miss accepted before cycle n has not been served by then. */
  ghost predicate MissAt(ys: seq<System>, ins: seq<CoreIn>, n: nat, k: nat)
    requires IsRun(ys, ins) && k < |ins|
  {
    k < n && Miss(ys[k].c, ins[k]) && n <= k + Latency(InfoOf(ys[k], ins[k].req))
  }

  /** The rest of a run. */
  lemma RunFrom(ys: seq<System>, ins: seq<CoreIn>, k: nat)
    requires IsRun(ys, ins) && AlignedInputs(ins) && k < |ins|
    ensures IsRun(ys[k..], ins[k..]) && AlignedInputs(ins[k..]) && ys[k..][0] == ys[k] && ins[k..][0] == ins[k]
  {
    hide Step;
  }

  /** Where a miss accepted in cycle k is t cycles later. */
  lemma PhasesFrom(ys: seq<System>, ins: seq<CoreIn>, k: nat, t: nat)
    requires IsRun(ys, ins) && AlignedInputs(ins) && Ok(ys[0]) && k < |ins| && Miss(ys[k].c, ins[k])
    requires 1 <= t <= Latency(InfoOf(ys[k], ins[k].req)) && k + t < |ys|
    ensures Ok(ys[k + t]) && PhaseAt(ys[k + t], InfoOf(ys[k], ins[k].req), t)
  {
    hide Step, PhaseAt, Ok;
    RunOk(ys, ins, k);
    RunFrom(ys, ins, k);
    PhasesFollow(ys[k..], ins[k..], InfoOf(ys[k], ins[k].req), t);
  }

  lemma BlockedNotReady(ys: seq<System>, ins: seq<CoreIn>, n: nat, k: nat)
    requires IsRun(ys, ins) && AlignedInputs(ins) && Ok(ys[0]) && n < |ys| && k < |ins| && MissAt(ys, ins, n, k)
    ensures !Ready(ys[n].c)
  {
    hide Step, PhaseAt, Ok, Ready;
    PhasesFrom(ys, ins, k, n - k);
    PhaseOps(ys[n], ins[k], InfoOf(ys[k], ins[k].req), n - k);
  }

  /** Outside a miss the cache is ready again in the next cycle; after reset it becomes ready. */
  lemma ReadyAgain(y: System, i: CoreIn)
    requires Ok(y) && (y.c.fsm.DcReset? || (Ready(y.c) && !Miss(y.c, i)))
    ensures Ready(Step(y, i).c)
  {
    hide Low, High, Join, Pow2, BusAddr, LookupWay, VictimWay;
    IdleStep(y, i);
  }

  /** A miss is served when its latency has passed. */
  lemma ServedReady(ys: seq<System>, ins: seq<CoreIn>, k: nat)
    requires IsRun(ys, ins) && AlignedInputs(ins) && Ok(ys[0]) && k < |ins| && Miss(ys[k].c, ins[k])
    requires k + Latency(InfoOf(ys[k], ins[k].req)) < |ins|
    ensures Ready(ys[k + Latency(InfoOf(ys[k], ins[k].req)) + 1].c)
  {
    hide Step, PhaseAt, Ok, Ready;
    var m := InfoOf(ys[k], ins[k].req);
    PhasesFrom(ys, ins, k, Latency(m));
    PhaseLast(ys[k + Latency(m)], ins[k + Latency(m)], m);
  }

  lemma {:induction false} NotReadyBlocked(ys: seq<System>, ins: seq<CoreIn>, n: nat) returns (k: nat)
    requires IsRun(ys, ins) && AlignedInputs(ins) && AfterReset(ys[0].c) && !ys[0].rsp.valid
    requires 1 <= n < |ys| && !Ready(ys[n].c)
    ensures k < |ins| && MissAt(ys, ins, n, k)
  {
    ResetEstablishes(ys[0]);
    ResetOk(ys[0]);
    ResetUnready(ys[0].c);
    RunOk(ys, ins, n - 1);
    hide Step, PhaseAt, Ok, Ready, AfterReset, Inv, Miss, InfoOf, WellFormed;
    var y, i := ys[n - 1], ins[n - 1];
    if n == 1 {
      ReadyAgain(y, i);
    } else if Ready(y.c) {
      if !Miss(y.c, i) {
        ReadyAgain(y, i);
      }
      k := n - 1;
    } else {
      k := NotReadyBlocked(ys, ins, n - 1);
      if n - 1 == k + Latency(InfoOf(ys[k], ins[k].req)) {
        ServedReady(ys, ins, k);
      }
    }
  }

  lemma ResetUnready(s: Cache)
    requires AfterReset(s)
    ensures s.fsm.DcReset?
  {
  }

  /** In every run from reset, from the first cycle on: the cache is ready exactly when no accepted miss is
      still within its latency. */
  lemma ReadyExactly(ys: seq<System>, ins: seq<CoreIn>, n: nat)
    requires IsRun(ys, ins) && AlignedInputs(ins) && AfterReset(ys[0].c) && !ys[0].rsp.valid
    requires 1 <= n < |ys|
    ensures Ready(ys[n].c) <==> forall k: nat :: k < |ins| ==> !MissAt(ys, ins, n, k)
  {
    ResetEstablishes(ys[0]);
    ResetOk(ys[0]);
    hide Step, Ready, AfterReset, MissAt, Ok, Inv;
    if Ready(ys[n].c) {
      forall k: nat | k < |ins|
        ensures !MissAt(ys, ins, n, k)
      {
        if MissAt(ys, ins, n, k) {
          BlockedNotReady(ys, ins, n, k);
        }
      }
    } else {
      var k := NotReadyBlocked(ys, ins, n);
    }
  }

  /** A request that is held valid is accepted within eleven cycles. */
  lemma AcceptedSoon(ys: seq<System>, ins: seq<CoreIn>, n: nat) returns (j: nat)
    requires IsRun(ys, ins) && AlignedInputs(ins) && AfterReset(ys[0].c) && !ys[0].rsp.valid
    requires 1 <= n && n + 10 < |ins| && forall k :: n <= k <= n + 10 ==> ins[k].valid
    ensures n <= j <= n + 10 && NewReq(ys[j].c, ins[j])
  {
    ResetEstablishes(ys[0]);
    ResetOk(ys[0]);
    hide Step, Ready, AfterReset, Ok, Inv, Miss, InfoOf, WellFormed;
    if Ready(ys[n].c) {
      j := n;
    } else {
      var k := NotReadyBlocked(ys, ins, n);
      j := k + Latency(InfoOf(ys[k], ins[k].req)) + 1;
      ServedReady(ys, ins, k);
    }
  }

  // ---------------------------------------------------------------------------------------
  // Every load, hit or miss

  /** What is owed when a load has been accepted stays owed while the cache is not ready. */
  lemma {:induction false} StaysOwed(ys: seq<System>, ins: seq<CoreIn>, s: nat, t: nat)
    requires IsRun(ys, ins) && Ok(ys[0]) && AlignedInputs(ins) && s < t < |ys|
    requires NewReq(ys[s].c, ins[s]) && !ins[s].req.write
    requires forall k :: s < k < t ==> !Ready(ys[k].c)
    ensures Ok(ys[s]) && Ok(ys[t]) && Outstanding(ys[t]) == Some(LoadFrom(Abs(ys[s]), ins[s].req))
    decreases t
  {
    hide Step, Abs, Outstanding, Ready;
    RunOk(ys, ins, s);
    if t == s + 1 {
      StepRefines(ys[s], ins[s]);
    } else {
      StaysOwed(ys, ins, s, t - 1);
      StalledKeepsSpec(ys[t - 1], ins[t - 1]);
    }
  }

  /** A ready cache that owes data delivers it. */
  lemma ReadyDelivers(y: System)
    requires Ok(y) && Ready(y.c) && Outstanding(y).Some?
    ensures RspValid(y.c) && Outstanding(y) == Some(RspData(y.c))
  {
  }

  /** Every accepted load: the first cycle after it in which the cache is ready carries the response, and
      that is the flat memory's load at acceptance. */
  lemma LoadAnswered(ys: seq<System>, ins: seq<CoreIn>, s: nat, t: nat)
    requires IsRun(ys, ins) && Ok(ys[0]) && AlignedInputs(ins) && s < t < |ys|
    requires NewReq(ys[s].c, ins[s]) && !ins[s].req.write
    requires Ready(ys[t].c) && forall k :: s < k < t ==> !Ready(ys[k].c)
    ensures Ok(ys[s]) && WellFormed(ys[t].c)
    ensures RspValid(ys[t].c) && RspData(ys[t].c) == LoadFrom(Abs(ys[s]), ins[s].req)
  {
    hide Step, Abs, Outstanding, Ready, RspValid, RspData;
    StaysOwed(ys, ins, s, t);
    ReadyDelivers(ys[t]);
  }

  /** The abstract memory is the initial memory with every store accepted so far. */
  lemma AbsIsHistory(ys: seq<System>, ins: seq<CoreIn>, n: nat)
    requires IsRun(ys, ins) && AlignedInputs(ins) && n < |ys|
    requires AfterReset(ys[0].c) && !ys[0].rsp.valid
    ensures IsRun(ys[..n + 1], ins[..n]) && AllAligned(Reqs(Trace(ys[..n + 1], ins[..n])))
    ensures Ok(ys[n]) && Abs(ys[n]) == FlatAfter(Bytes(ys[0].main), Reqs(Trace(ys[..n + 1], ins[..n])))
  {
    hide Step, Abs, AfterReset;
    assert AlignedInputs(ins[..n]);
    ResetRunRefines(ys[..n + 1], ins[..n]);
  }
}
