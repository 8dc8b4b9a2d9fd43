/** Instruction cache: the registers and arrays of the module, updated in place on each clock edge. */
module ICacheRtl {
  import opened Options
  import opened BitSlices
  import opened MemTypes
  import opened DCacheModel
  import opened DCacheRtl
  import opened ICacheModel

  /** Signals of one cycle that the registers and arrays sample. */
  datatype Sampled = Sampled(cached: bool, way: nat, victim: nat, accepts: bool, memR: bool, write: bool, last: bool,
                             read: Access, readWord: nat, missD: bool, save: IPending)

  ghost predicate SampledOf(s: ICache, i: FetchIn, rsp: MemRsp, n: Sampled)
    requires Formed(s)
  {
    && n.cached == Cached(s, i.addr) && n.way == WayOf(s, i.addr) && n.victim == VictimOf(s, i.addr)
    && n.accepts == Accepts(s, i) && n.memR == IMemR(s).Some? && n.write == FillWrite(s, rsp) && n.last == LastBeat(s, rsp)
    && n.read == Access(ReadWay(s, i), FetchSet(ReadAddr(s, i), s.geo)) && n.readWord == ReadAddr(s, i) % 16
    && n.missD == MissedD(s) && n.save == IPending(true, BlockStart(s.crD), s.crD, s.victimD)
  }

  lemma OutputsLoaded(s: ICache, i: FetchIn, rsp: MemRsp, d: seq<Quad>, a: nat)
    requires Formed(s) && a == BankCell(s, i, rsp) && |d| == s.geo.ways
    requires forall w :: 0 <= w < s.geo.ways ==> d[w] == s.bank[w][a]
    ensures d == IDoutNext(s, i, rsp)
  {
    hide Low, High, Join, Pow2, LookupWay, BankCell;
  }

  class ICacheUnit {
    const geo: Geometry
    const aValid: array2<bool>
    const aTag: array2<nat>
    const aLru: array2<nat>
    const bank: array2<Quad>
    const bankData: array<Quad>
    var victimD: nat
    var newReqD: bool
    var hitD: bool
    var crD: WordAddr
    var pend: IPending
    var memCnt: Cnt
    var memCntD: Cnt
    var doneD: bool
    var updateLruD: bool
    var lcaD: Access
    var wayD: nat
    var wordD: Cnt
    var fsm: IFsm

    ghost predicate Valid()
      reads this
    {
      && ValidGeometry(geo)
      && aValid.Length0 == aTag.Length0 == aLru.Length0 == bank.Length0 == bankData.Length == geo.ways
      && aValid.Length1 == aTag.Length1 == aLru.Length1 == geo.Sets() && bank.Length1 == 4 * geo.Sets()
      && aTag != aLru
      && victimD < geo.ways && pend.way < geo.ways && wayD < geo.ways && lcaD.way < geo.ways && lcaD.set_ < geo.Sets()
    }

    ghost function View(): (s: ICache)
      requires Valid()
      reads this, aValid, aTag, aLru, bank, bankData
      ensures Formed(s)
    {
      ICache(geo, Rows(aValid), Rows(aTag), Rows(aLru), Rows(bank), bankData[..], victimD, newReqD, hitD, crD, pend,
             memCnt, memCntD, doneD, updateLruD, lcaD, wayD, wordD, fsm)
    }

    constructor (g: Geometry)
      requires ValidGeometry(g)
      ensures Valid() && IAfterReset(View()) && geo == g
      ensures fresh(aValid) && fresh(aTag) && fresh(aLru) && fresh(bank) && fresh(bankData)
    {
      hide Low, High, Join, Pow2;
      geo := g;
      aValid := new bool[g.ways, g.Sets()]((w, x) => false);
      aTag := new nat[g.ways, g.Sets()]((w, x) => 0);
      aLru := new nat[g.ways, g.Sets()]((w: nat, x: nat) => w);
      bank := new Quad[g.ways, 4 * g.Sets()];
      bankData := new Quad[g.ways];
      victimD, wayD, wordD, crD, pend := 0, 0, 0, 0, CLEAR_IPEND;
      newReqD, hitD, doneD, updateLruD := false, false, false, false;
      memCnt, memCntD, lcaD, fsm := 0, 0, Access(0, 0), IcReset;
      new;
      ResetView();
    }

    lemma ResetView()
      requires Valid() && pend == CLEAR_IPEND && victimD == wayD == wordD == crD == 0 && lcaD == Access(0, 0) && fsm == IcReset
      requires !newReqD && !hitD && !doneD && !updateLruD && memCnt == memCntD == 0
      requires forall w, x :: 0 <= w < geo.ways && 0 <= x < geo.Sets() ==> !aValid[w, x]
      requires forall w, x :: 0 <= w < geo.ways && 0 <= x < geo.Sets() ==> aTag[w, x] == 0
      requires forall w, x :: 0 <= w < geo.ways && 0 <= x < geo.Sets() ==> aLru[w, x] == w
      ensures IAfterReset(View())
    {
      hide Low, High, Join, Pow2;
    }

    method Lookup(a: WordAddr) returns (cached: bool, way: nat, victim: nat)
      requires Valid()
      ensures way == WayOf(View(), a) && victim == VictimOf(View(), a) && cached == Cached(View(), a)
    {
      hide Low, High, Join, Pow2;
      var x, tag := FetchSet(a, geo), FetchTag(a, geo);
      ghost var s := View();
      cached, way, victim := false, 0, 0;
      for w := 0 to geo.ways
        invariant way == LookupWay(geo, s.valid, s.tag, x, tag, w) && victim == VictimWay(geo, s.valid, s.tag, s.lru, x, tag, w)
        invariant cached == (w > 0 && TagHit(s.valid, s.tag, way, x, tag))
        invariant way < geo.ways && victim < geo.ways
      {
        if aValid[w, x] && aTag[w, x] == tag {
          cached := true;
          way := w;
        } else if aLru[w, x] == geo.ways - 1 {
          victim := w;
        }
      }
    }

    /** What the cache drives to the core and to memory. */
    method Drive() returns (ready: bool, rspValid: bool, rspData: Word32, memR: Option<QuadAddr>)
      requires Valid()
      ensures ready == IReady(View()) && rspValid == IRspValid(View()) && rspData == RspWord(View()) && memR == IMemR(View())
    {
      ready, rspValid, memR := false, false, None;
      match fsm {
        case IcReset =>
        case IcReady =>
          ready := true;
          if pend.active {
            rspValid := true;
          } else if newReqD {
            if hitD {
              rspValid := true;
            } else {
              ready := false;
              memR := Some(BlockStart(crD));
            }
          }
        case IcMiss =>
          if memCnt > 0 {
            memR := Some(BusAddr(pend.startAddr + memCnt));
          }
      }
      rspData := WordAt(bankData[wayD], wordD);
    }

    method Sample(i: FetchIn, rsp: MemRsp, ready: bool, memR: bool) returns (n: Sampled)
      requires Valid() && ready == IReady(View()) && memR == IMemR(View()).Some?
      ensures SampledOf(View(), i, rsp, n)
    {
      hide Low, High, Join, Pow2, LookupWay, VictimWay;
      var cached, way, victim := Lookup(i.addr);
      var usePend := pend.active && !fsm.IcReady?;
      var a := if usePend then pend.addr else i.addr;
      n := Sampled(cached, way, victim, i.valid && ready, memR, rsp.valid && fsm.IcMiss?, rsp.valid && memCntD == 3,
                   Access(if usePend then pend.way else way, FetchSet(a, geo)), a % 16,
                   newReqD && !hitD, IPending(true, BlockStart(crD), crD, victimD));
    }

    /** Banks: all output registers are loaded, then a refill beat is written. */
    method ClockBanks(ghost s: ICache, i: FetchIn, rsp: MemRsp, n: Sampled)
      requires Valid() && Formed(s) && SampledOf(s, i, rsp, n)
      requires s.geo == geo && s.pend == pend && s.memCntD == memCntD && s.bank == Rows(bank)
      modifies bank, bankData
      ensures Rows(bank) == IBankNext(s, i, rsp) && bankData[..] == IDoutNext(s, i, rsp)
    {
      var a := BankAddress(s, i, rsp, n);
      hide Low, High, Join, Pow2, LookupWay, VictimWay, BankCell, FetchSet;
      LoadOutputs(a);
      OutputsLoaded(s, i, rsp, bankData[..], a);
      WriteBeat(s, i, rsp, n.write, a);
    }

    method BankAddress(ghost s: ICache, i: FetchIn, rsp: MemRsp, n: Sampled) returns (a: nat)
      requires Formed(s) && SampledOf(s, i, rsp, n)
      requires s.geo == geo && s.pend == pend && s.memCntD == memCntD
      ensures a == BankCell(s, i, rsp) < 4 * geo.Sets()
    {
      hide Low, High, Join, Pow2, LookupWay, VictimWay, WayOf, VictimOf, Cached, IMemR, Shape;
      a := if n.write then 4 * FetchSet(pend.addr, geo) + memCntD else 4 * n.read.set_ + n.readWord / 4;
      assert n.readWord / 4 == ReadAddr(s, i) / 4 % 4;
    }

    method WriteBeat(ghost s: ICache, i: FetchIn, rsp: MemRsp, write: bool, a: nat)
      requires Valid() && Formed(s) && a == BankCell(s, i, rsp) && write == FillWrite(s, rsp)
      requires s.geo == geo && s.pend == pend && s.bank == Rows(bank)
      modifies bank
      ensures Rows(bank) == IBankNext(s, i, rsp)
    {
      hide Low, High, Join, Pow2, LookupWay, VictimWay, BankCell;
      if write {
        WriteCell(bank, pend.way, a, rsp.data);
      }
    }

    method LoadOutputs(a: nat)
      requires Valid() && a < 4 * geo.Sets()
      modifies bankData
      ensures forall w :: 0 <= w < geo.ways ==> bankData[w] == bank[w, a]
    {
      hide Low, High, Join, Pow2;
      for w := 0 to geo.ways
        invariant forall v :: 0 <= v < w ==> bankData[v] == bank[v, a]
      {
        bankData[w] := bank[w, a];
      }
    }

    /** Tags and valid bits. */
    method ClockMeta(ghost s: ICache, i: FetchIn, rsp: MemRsp, n: Sampled)
      requires Valid() && s == View() && SampledOf(s, i, rsp, n)
      modifies aValid, aTag
      ensures Rows(aValid) == IValidNext(s, i, rsp) && Rows(aTag) == ITagNext(s, rsp)
    {
      hide Low, High, Join, Pow2, LookupWay, VictimWay;
      if n.write && n.last {
        WriteCell(aValid, pend.way, FetchSet(pend.addr, geo), true);
        WriteCell(aTag, pend.way, FetchSet(pend.addr, geo), High(pend.startAddr / 4, geo.idxBits));
      } else if newReqD && !hitD {
        WriteCell(aValid, n.victim, FetchSet(i.addr, geo), false);
      }
    }

    /** The recency update of the access registered one cycle ago. */
    method ClockLru()
      requires Valid()
      modifies aLru
      ensures Rows(aLru) == if updateLruD then LruTouch(old(Rows(aLru)), geo.ways, geo.Sets(), lcaD.way, lcaD.set_) else old(Rows(aLru))
    {
      hide Low, High, Join, Pow2;
      if updateLruD {
        var way, x := lcaD.way, lcaD.set_;
        var touched := aLru[way, x];
        for w := 0 to geo.ways
          invariant forall v, z :: 0 <= v < geo.ways && 0 <= z < geo.Sets() ==>
            aLru[v, z] == if v < w then LruTouch(old(Rows(aLru)), geo.ways, geo.Sets(), way, x)[v][z] else old(aLru[v, z])
        {
          if geo.ways == 2 {
            aLru[w, x] := if w == way then 0 else 1;
          } else {
            aLru[w, x] := TouchRank(aLru[w, x], touched, w == way);
          }
        }
        ghost var t, t' := LruTouch(old(Rows(aLru)), geo.ways, geo.Sets(), way, x), Rows(aLru);
        forall v | 0 <= v < geo.ways
          ensures t'[v] == t[v]
        {
        }
      }
    }

    /** What was accepted and where the response comes from. */
    method ClockAccepted(ghost s: ICache, i: FetchIn, rsp: MemRsp, n: Sampled)
      requires Formed(s) && SampledOf(s, i, rsp, n) && s.hitD == hitD && s.crD == crD
      modifies `victimD, `newReqD, `hitD, `crD, `wayD, `wordD
      ensures victimD == VictimOf(s, i.addr) && newReqD == Accepts(s, i)
      ensures hitD == (if Accepts(s, i) then FetchHit(s, i) else s.hitD) && crD == (if Accepts(s, i) then i.addr else s.crD)
      ensures wayD == ReadWay(s, i) && wordD == ReadAddr(s, i) % 4
    {
      hide Low, High, Join, Pow2, LookupWay, VictimWay, Cached, WayOf, VictimOf, TagHit, Shape, FetchSet, IReady, IMemR;
      victimD, newReqD := n.victim, n.accepts;
      if n.accepts {
        hitD, crD := n.cached, i.addr;
      }
      wayD, wordD := n.read.way, n.readWord % 4;
    }

    /** What to age in the next cycle. */
    method ClockAccess(ghost s: ICache, i: FetchIn, rsp: MemRsp, n: Sampled)
      requires Formed(s) && SampledOf(s, i, rsp, n) && s.geo == geo && s.pend == pend && s.doneD == doneD
      modifies `updateLruD, `lcaD
      ensures updateLruD == (FetchHit(s, i) || FillDone(s)) && lcaD == Lca(s, i)
    {
      hide Low, High, Join, Pow2, LookupWay, VictimWay, Cached, WayOf, VictimOf, TagHit, Shape, FetchSet, IReady, IMemR;
      var hit, fill := n.accepts && n.cached, doneD && pend.active;
      updateLruD := hit || fill;
      if fill {
        lcaD := Access(pend.way, FetchSet(pend.addr, geo));
      } else if hit {
        lcaD := Access(n.way, FetchSet(i.addr, geo));
      } else {
        lcaD := Access(0, 0);
      }
    }

    /** All request registers. */
    method ClockRequest(ghost s: ICache, i: FetchIn, rsp: MemRsp, n: Sampled)
      requires Formed(s) && SampledOf(s, i, rsp, n)
      requires s.geo == geo && s.hitD == hitD && s.crD == crD && s.pend == pend && s.doneD == doneD
      modifies `victimD, `newReqD, `hitD, `crD, `updateLruD, `lcaD, `wayD, `wordD
      ensures victimD == VictimOf(s, i.addr) && newReqD == Accepts(s, i)
      ensures hitD == (if Accepts(s, i) then FetchHit(s, i) else s.hitD) && crD == (if Accepts(s, i) then i.addr else s.crD)
      ensures updateLruD == (FetchHit(s, i) || FillDone(s)) && lcaD == Lca(s, i)
      ensures wayD == ReadWay(s, i) && wordD == ReadAddr(s, i) % 4
    {
      hide Low, High, Join, Pow2, LookupWay, VictimWay, Cached, WayOf, VictimOf, Shape, FetchSet, Lca, ReadWay, ReadAddr, Accepts,
        FetchHit, FillDone;
      ClockAccepted(s, i, rsp, n);
      ClockAccess(s, i, rsp, n);
    }

    /** Pending request, beat counters and state. */
    method ClockMiss(ghost s: ICache, i: FetchIn, rsp: MemRsp, n: Sampled)
      requires Formed(s) && SampledOf(s, i, rsp, n)
      requires s.pend == pend && s.memCnt == memCnt && s.doneD == doneD && s.fsm == fsm
      modifies `pend, `memCnt, `memCntD, `doneD, `fsm
      ensures pend == IPendNext(s) && fsm == IFsmNext(s)
      ensures memCnt == (if IMemR(s).Some? then (s.memCnt + 1) % 4 else s.memCnt) && memCntD == s.memCnt && doneD == LastBeat(s, rsp)
    {
      hide Low, High, Join, Pow2, LookupWay, VictimWay, BusAddr;
      var done := doneD;
      if fsm.IcReady? && pend.active {
        pend := CLEAR_IPEND;
      } else if fsm.IcReady? && n.missD {
        pend := n.save;
      }
      doneD := n.last;
      memCntD := memCnt;
      if n.memR {
        memCnt := (memCnt + 1) % 4;
      }
      match fsm {
        case IcReset => fsm := IcReady;
        case IcReady => if n.missD { fsm := IcMiss; }
        case IcMiss => if done { fsm := IcReady; }
      }
    }

    lemma NextFromParts(s: ICache, i: FetchIn, rsp: MemRsp)
      requires Valid() && Formed(s) && s.geo == geo
      requires Rows(aValid) == IValidNext(s, i, rsp) && Rows(aTag) == ITagNext(s, rsp) && Rows(aLru) == ILruNext(s)
      requires Rows(bank) == IBankNext(s, i, rsp) && bankData[..] == IDoutNext(s, i, rsp)
      requires victimD == VictimOf(s, i.addr) && newReqD == Accepts(s, i)
      requires hitD == (if Accepts(s, i) then FetchHit(s, i) else s.hitD) && crD == (if Accepts(s, i) then i.addr else s.crD)
      requires updateLruD == (FetchHit(s, i) || FillDone(s)) && lcaD == Lca(s, i)
      requires wayD == ReadWay(s, i) && wordD == ReadAddr(s, i) % 4
      requires pend == IPendNext(s) && fsm == IFsmNext(s)
      requires memCnt == (if IMemR(s).Some? then (s.memCnt + 1) % 4 else s.memCnt) && memCntD == s.memCnt && doneD == LastBeat(s, rsp)
      ensures View() == INext(s, i, rsp)
    {
      hide Low, High, Join, Pow2, LookupWay, VictimWay, BusAddr, IValidNext, ITagNext, ILruNext, IBankNext, IDoutNext, Lca, Rows;
    }

    /** All arrays, from the state before the edge. */
    method ClockArrays(ghost s: ICache, i: FetchIn, rsp: MemRsp, n: Sampled)
      requires Valid() && s == View() && SampledOf(s, i, rsp, n)
      modifies aValid, aTag, aLru, bank, bankData
      ensures Rows(aValid) == IValidNext(s, i, rsp) && Rows(aTag) == ITagNext(s, rsp) && Rows(aLru) == ILruNext(s)
      ensures Rows(bank) == IBankNext(s, i, rsp) && bankData[..] == IDoutNext(s, i, rsp)
    {
      hide Low, High, Join, Pow2, LookupWay, VictimWay, BusAddr, Rows, LruTouch, IValidNext, ITagNext, Put, Cached, Accepts, IMemR, WayOf, VictimOf;
      ClockMeta(s, i, rsp, n);
      ClockLru();
      ClockBanks(s, i, rsp, n);
    }

    /** One clock edge with the fetch request and the memory response of the cycle; returns what the
        cache drives in that cycle. */
    method Clock(i: FetchIn, rsp: MemRsp) returns (ready: bool, rspValid: bool, rspData: Word32, memR: Option<QuadAddr>)
      requires Valid()
      modifies this, aValid, aTag, aLru, bank, bankData
      ensures Valid() && View() == INext(old(View()), i, rsp)
      ensures ready == IReady(old(View())) && rspValid == IRspValid(old(View())) && rspData == RspWord(old(View()))
      ensures memR == IMemR(old(View()))
    {
      hide Low, High, Join, Pow2, LookupWay, VictimWay, BusAddr, INext, SampledOf;
      hide IValidNext, ITagNext, ILruNext, IBankNext, IDoutNext, Lca, RspWord;
      ghost var s := View();
      ready, rspValid, rspData, memR := Drive();
      var n := Sample(i, rsp, ready, memR.Some?);
      ClockArrays(s, i, rsp, n);
      ClockRequest(s, i, rsp, n);
      ClockMiss(s, i, rsp, n);
      NextFromParts(s, i, rsp);
    }
  }
}
