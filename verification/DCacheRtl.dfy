/** Data cache: the registers and arrays of the module, updated in place on each clock edge. */
module DCacheRtl {
  import opened Options
  import opened BitSlices
  import opened MemTypes
  import opened DCacheModel

  /** The contents of a two-dimensional array as rows. */
  ghost function Rows<T>(a: array2<T>): (t: Table<T>)
    reads a
    ensures |t| == a.Length0
    ensures forall w :: 0 <= w < a.Length0 ==> |t[w]| == a.Length1
    ensures forall w, x :: 0 <= w < a.Length0 && 0 <= x < a.Length1 ==> t[w][x] == a[w, x]
  {
    seq(a.Length0, w requires 0 <= w < a.Length0 reads a =>
      seq(a.Length1, x requires 0 <= x < a.Length1 reads a => a[w, x]))
  }

  method WriteCell<T>(a: array2<T>, w: nat, x: nat, v: T)
    requires w < a.Length0 && x < a.Length1
    modifies a
    ensures Rows(a) == Put(old(Rows(a)), w, x, v)
  {
    a[w, x] := v;
    ghost var t, t' := old(Rows(a)), Rows(a);
    forall r | 0 <= r < |t|
      ensures t'[r] == Put(t, w, x, v)[r]
    {
    }
  }

  /** Wires of one cycle that the registers sample. */
  datatype Wires = Wires(newReq: bool, tagMatch: bool, victim: nat, victimDirty: bool, lfc: LoadSel, memW: bool, memR: bool)

  /** The bank port and the selected ways of one cycle. */
  datatype Port = Port(way: nat, cacheStore: bool, a: nat, stc: StoreSel, mask: seq<bool>, din: Quad)

  class DCache {
    const geo: Geometry
    const aValid: array2<bool>
    const aDirty: array2<bool>
    const aTag: array2<nat>
    const aLru: array2<nat>
    const bank: array2<Quad>
    const bankData: array<Quad>
    var pend: Pending
    var newReqD: bool
    var hitD: bool
    var victimDirtyD: bool
    var memCnt: Cnt
    var memCntD: Cnt
    var doneD: bool
    var clearOnRead: bool
    var evictCnt: Cnt
    var lfcD: LoadSel
    var fsm: Fsm

    ghost predicate Valid()
      reads this
    {
      && ValidGeometry(geo)
      && aValid.Length0 == aDirty.Length0 == aTag.Length0 == aLru.Length0 == bank.Length0 == bankData.Length == geo.ways
      && aValid.Length1 == aDirty.Length1 == aTag.Length1 == aLru.Length1 == geo.Sets()
      && bank.Length1 == 4 * geo.Sets()
      && aValid != aDirty && aTag != aLru
      && pend.way < geo.ways && lfcD.way < geo.ways && lfcD.word < 16
    }

    ghost function View(): (s: Cache)
      requires Valid()
      reads this, aValid, aDirty, aTag, aLru, bank, bankData
      ensures WellFormed(s)
    {
      Cache(geo, Rows(aValid), Rows(aDirty), Rows(aTag), Rows(aLru), Rows(bank), bankData[..],
            pend, newReqD, hitD, victimDirtyD, memCnt, memCntD, doneD, clearOnRead, evictCnt, lfcD, fsm)
    }

    ghost predicate RegsAre(s: Cache)
      reads this
    {
      && s.geo == geo && s.pend == pend && s.newReqD == newReqD && s.hitD == hitD && s.victimDirtyD == victimDirtyD
      && s.memCnt == memCnt && s.memCntD == memCntD && s.doneD == doneD && s.clearOnRead == clearOnRead
      && s.evictCnt == evictCnt && s.lfcD == lfcD && s.fsm == fsm
    }

    /** Power-up followed by reset: metadata cleared, LRU ranks set to the way index. */
    constructor (g: Geometry)
      requires ValidGeometry(g)
      ensures Valid() && AfterReset(View()) && geo == g
      ensures fresh(aValid) && fresh(aDirty) && fresh(aTag) && fresh(aLru) && fresh(bank) && fresh(bankData)
    {
      hide Low, High, Join, Pow2, BusAddr;
      geo := g;
      aValid := new bool[g.ways, g.Sets()]((w, x) => false);
      aDirty := new bool[g.ways, g.Sets()]((w, x) => false);
      aTag := new nat[g.ways, g.Sets()]((w, x) => 0);
      aLru := new nat[g.ways, g.Sets()]((w: nat, x: nat) => w);
      bank := new Quad[g.ways, 4 * g.Sets()];
      bankData := new Quad[g.ways];
      pend := CLEAR_PEND;
      newReqD, hitD, victimDirtyD, doneD, clearOnRead := false, false, false, false, false;
      memCnt, memCntD, evictCnt := 0, 0, 0;
      lfcD := CLEAR_LFC;
      fsm := DcReset;
      new;
      ResetView();
    }

    lemma ResetView()
      requires Valid() && pend == CLEAR_PEND && lfcD == CLEAR_LFC && fsm == DcReset
      requires !newReqD && !hitD && !victimDirtyD && !doneD && !clearOnRead && memCnt == memCntD == evictCnt == 0
      requires forall w, x :: 0 <= w < geo.ways && 0 <= x < geo.Sets() ==> !aValid[w, x]
      requires forall w, x :: 0 <= w < geo.ways && 0 <= x < geo.Sets() ==> !aDirty[w, x]
      requires forall w, x :: 0 <= w < geo.ways && 0 <= x < geo.Sets() ==> aTag[w, x] == 0
      requires forall w, x :: 0 <= w < geo.ways && 0 <= x < geo.Sets() ==> aLru[w, x] == w
      ensures AfterReset(View())
    {
      hide Low, High, Join, Pow2, BusAddr;
    }

    /** The lookup loop over the ways: a later match overrides an earlier one, and a way that does
        not match is the victim if its rank is the highest. */
    method Lookup(r: Req) returns (match_: bool, way: nat, victim: nat)
      requires Valid()
      ensures way == CrWay(View(), r) && victim == CrVictim(View(), r)
      ensures match_ == ReqHits(View(), r)
    {
      hide Low, High, Join, Pow2;
      var x, tag := SetIdx(r.addr, geo), TagOf(r.addr, geo);
      ghost var s := View();
      match_, way, victim := false, 0, 0;
      for w := 0 to geo.ways
        invariant way == LookupWay(geo, s.valid, s.tag, x, tag, w) && victim == VictimWay(geo, s.valid, s.tag, s.lru, x, tag, w)
        invariant match_ == (w > 0 && TagHit(s.valid, s.tag, way, x, tag))
        invariant way < geo.ways && victim < geo.ways
      {
        if aValid[w, x] && aTag[w, x] == tag {
          match_ := true;
          way := w;
        } else if aLru[w, x] == geo.ways - 1 {
          victim := w;
        }
      }
    }

    /** Banks: every output register is loaded first, then the selected way is written under byte
        enables. */
    method ClockBanks(a: nat, cacheStore: bool, way: nat, mask: seq<bool>, din: Quad)
      requires Valid() && a < 4 * geo.Sets() && way < geo.ways && |mask| == 16
      modifies bank, bankData
      ensures bankData[..] == seq(geo.ways, w requires 0 <= w < geo.ways => old(Rows(bank))[w][a])
      ensures Rows(bank) == if cacheStore then Put(old(Rows(bank)), way, a, ByteWrite(old(bank[way, a]), mask, din))
                            else old(Rows(bank))
    {
      ghost var t := Rows(bank);
      for w := 0 to geo.ways
        invariant forall v :: 0 <= v < w ==> bankData[v] == bank[v, a]
        invariant Rows(bank) == t
      {
        bankData[w] := bank[w, a];
      }
      assert bankData[..] == seq(geo.ways, w requires 0 <= w < geo.ways => t[w][a]);
      if cacheStore {
        WriteCell(bank, way, a, ByteWrite(bank[way, a], mask, din));
      }
    }

    /** Recency update: the touched way becomes rank 0 and every lower rank moves up by one; two
        ways simply toggle. */
    method TouchLru(way: nat, x: nat)
      requires Valid() && way < geo.ways && x < geo.Sets()
      modifies aLru
      ensures Rows(aLru) == LruTouch(old(Rows(aLru)), geo.ways, geo.Sets(), way, x)
    {
      var touched := aLru[way, x];
      for w := 0 to geo.ways
        invariant forall v, z :: 0 <= v < geo.ways && 0 <= z < geo.Sets() ==>
          aLru[v, z] == if v < w then LruTouch(old(Rows(aLru)), geo.ways, geo.Sets(), way, x)[v][z] else old(aLru[v, z])
      {
        if geo.ways == 2 {
          aLru[w, x] := if w == way then 0 else 1;
        } else {
          aLru[w, x] := TouchRank(aLru[w, x], touched, w == way);
        }
      }
      ghost var t, t' := LruTouch(old(Rows(aLru)), geo.ways, geo.Sets(), way, x), Rows(aLru);
      forall v | 0 <= v < geo.ways
        ensures t'[v] == t[v]
      {
      }
    }

    method ClockLru(ghost s: Cache, i: CoreIn, hit: bool, way: nat)
      requires Valid() && s == View() && hit == Hit(s, i) && way == CrWay(s, i.req)
      modifies aLru
      ensures Rows(aLru) == LruNext(s, i)
    {
      var pending := doneD && pend.active;
      if pending && !hit {
        TouchLru(pend.way, SetIdx(pend.req.addr, geo));
      } else if hit {
        TouchLru(way, SetIdx(i.req.addr, geo));
      }
    }

    method ClockMeta(ghost s: Cache, i: CoreIn, rsp: MemRsp, stc: StoreSel, storeHit: bool)
      requires Valid() && WellFormed(s) && s.geo == geo && stc == Stc(s, i, rsp) && storeHit == StoreHit(s, i)
      requires s.pend == pend && s.memCntD == memCntD && s.doneD == doneD
      requires s.valid == Rows(aValid) && s.dirty == Rows(aDirty) && s.tag == Rows(aTag)
      modifies aValid, aDirty, aTag
      ensures Rows(aValid) == ValidNext(s, i, rsp) && Rows(aTag) == TagNext(s, i, rsp) && Rows(aDirty) == DirtyNext(s, i, rsp)
    {
      hide Low, High, Join, Pow2, BusAddr;
      var storePend := doneD && pend.active && pend.req.write;
      if rsp.valid && memCntD == 3 {
        WriteCell(aValid, stc.way, stc.set_, true);
        WriteCell(aTag, stc.way, stc.set_, High(pend.startAddr / 4, geo.idxBits));
        if !storePend && !storeHit {
          WriteCell(aDirty, stc.way, stc.set_, false);
        }
      }
      if storePend || storeHit {
        WriteCell(aDirty, stc.way, stc.set_, true);
      }
    }

    /** The load and store targets selected in this cycle. */
    method Targets(i: CoreIn, rsp: MemRsp, way: nat) returns (lfc: LoadSel, stc: StoreSel)
      requires Valid() && way == CrWay(View(), i.req)
      ensures lfc == Lfc(View(), i) && stc == Stc(View(), i, rsp)
    {
      var x, px := SetIdx(i.req.addr, geo), SetIdx(pend.req.addr, geo);
      if pend.active && !clearOnRead {
        lfc := LoadSel(pend.req.dtype, pend.req.write, pend.req.addr % 4, pend.way, px, WordIdx(pend.req.addr));
      } else {
        lfc := LoadSel(i.req.dtype, i.req.write, i.req.addr % 4, way, x, WordIdx(i.req.addr));
      }
      if (doneD && pend.active && pend.req.write) || rsp.valid {
        stc := StoreSel(pend.req.dtype, pend.way, px, ByteIdx(pend.req.addr), pend.req.wdata);
      } else {
        stc := StoreSel(i.req.dtype, way, x, ByteIdx(i.req.addr), i.req.wdata);
      }
    }

    /** The main memory port. */
    method MemPort(i: CoreIn, lfc: LoadSel) returns (memW: Option<MemWrite>, memR: Option<QuadAddr>)
      requires Valid() && lfc == Lfc(View(), i)
      ensures memW == MemW(View(), i) && memR == MemR(View())
    {
      hide Low, High, Join, Pow2, BusAddr;
      var victimStart := BusAddr(4 * Join(aTag[lfc.way, lfc.set_], lfc.set_, geo.idxBits));
      memW, memR := None, None;
      match fsm {
        case DcReset =>
        case DcReady =>
          if !clearOnRead && newReqD && !hitD {
            if victimDirtyD {
              memW := Some(MemWrite(victimStart, bankData[lfc.way]));
            } else {
              memR := Some(pend.startAddr);
            }
          }
        case DcMiss =>
          if memCnt > 0 {
            memR := Some(BusAddr(pend.startAddr + memCnt));
          }
        case DcEvict =>
          if memCntD != 3 {
            memW := Some(MemWrite(BusAddr(victimStart + memCnt), bankData[lfc.way]));
          } else {
            memR := Some(pend.startAddr);
          }
      }
    }

    /** What the cache drives to the core. */
    method Drive() returns (ready: bool, rspValid: bool, rspData: Word32)
      requires Valid()
      ensures ready == Ready(View()) && rspValid == RspValid(View()) && rspData == RspData(View())
    {
      ready := fsm.DcReady? && (clearOnRead || !newReqD || hitD);
      rspValid := fsm.DcReady? && (clearOnRead || (newReqD && hitD && !lfcD.write));
      rspData := LoadSteer(WordAt(bankData[lfcD.way], lfcD.word % 4), lfcD.off, lfcD.dtype);
    }

    /** The bank port. */
    method BankPort(i: CoreIn, rsp: MemRsp, lfc: LoadSel, stc: StoreSel, storeHit: bool, miss: bool, memWActive: bool)
      returns (cacheStore: bool, a: nat, mask: seq<bool>, din: Quad)
      requires Valid() && lfc == Lfc(View(), i) && stc == Stc(View(), i, rsp)
      requires storeHit == StoreHit(View(), i) && miss == Miss(View(), i) && memWActive == MemW(View(), i).Some?
      ensures cacheStore == CacheStore(View(), i, rsp) && a == BankAddr(View(), i, rsp)
      ensures mask == BankMask(View(), i, rsp) && din == BankDin(View(), i, rsp)
    {
      cacheStore := rsp.valid || (doneD && pend.active && pend.req.write) || storeHit;
      if cacheStore {
        a := stc.set_ * 4 + (if rsp.valid then memCntD else stc.byteIdx / 16);
      } else {
        a := lfc.set_ * 4 + (if miss || memWActive then evictCnt else lfc.word / 4);
      }
      mask := if rsp.valid then seq(16, _ => true) else StoreMask(stc.dtype, stc.byteIdx % 16);
      din := if rsp.valid then rsp.data else StoreData(stc.wdata, stc.byteIdx % 16);
    }

    // What each group of registers holds after an edge at which they held s and wires n were sampled.

    ghost predicate StateFrom(s: Cache, n: Wires) reads `evictCnt, `fsm {
      && evictCnt == (if s.fsm.DcMiss? && s.doneD && s.pend.active then 0
                      else if (n.newReq && !n.tagMatch) || n.memW then (s.evictCnt + 1) % 4 else s.evictCnt)
      && fsm == FsmNext(s)
    }

    ghost predicate BeatsFrom(s: Cache, rsp: MemRsp, n: Wires) reads `memCnt, `memCntD, `doneD {
      && memCnt == (if n.memW || n.memR then (s.memCnt + 1) % 4 else s.memCnt) && memCntD == s.memCnt
      && doneD == (rsp.valid && s.memCntD == 3)
    }

    ghost predicate FlagsFrom(s: Cache, n: Wires) reads `newReqD, `hitD, `victimDirtyD, `lfcD {
      && newReqD == n.newReq && hitD == (if n.newReq then n.tagMatch else s.hitD) && lfcD == n.lfc
      && victimDirtyD == (if n.newReq then n.victimDirty else s.victimDirtyD)
    }

    ghost predicate PendFrom(s: Cache, i: CoreIn, n: Wires) reads `pend, `clearOnRead {
      var storePend := s.doneD && s.pend.active && s.pend.req.write;
      && pend == (if n.newReq && !n.tagMatch then Pending(true, StartAddr(i.req.addr), i.req, n.victim)
                  else if s.clearOnRead || storePend then CLEAR_PEND else s.pend)
      && clearOnRead == (s.doneD && s.pend.active && !s.pend.req.write)
    }

    ghost predicate RegsFrom(s: Cache, i: CoreIn, rsp: MemRsp, n: Wires)
      reads this
    {
      StateFrom(s, n) && BeatsFrom(s, rsp, n) && FlagsFrom(s, n) && PendFrom(s, i, n)
    }

    /** Write-back counter and state. */
    method ClockState(ghost s: Cache, n: Wires)
      requires RegsAre(s)
      modifies `evictCnt, `fsm
      ensures StateFrom(s, n)
    {
      var pending, missD := doneD && pend.active, newReqD && !hitD;
      if fsm.DcMiss? && pending {
        evictCnt := 0;
      } else if (n.newReq && !n.tagMatch) || n.memW {
        evictCnt := (evictCnt + 1) % 4;
      }
      match fsm {
        case DcReset => fsm := DcReady;
        case DcReady => if missD { fsm := if victimDirtyD then DcEvict else DcMiss; }
        case DcMiss => if pending { fsm := DcReady; }
        case DcEvict => if memCntD == 3 { fsm := DcMiss; }
      }
    }

    /** Beat counters. */
    method ClockBeats(ghost s: Cache, rsp: MemRsp, n: Wires)
      requires s.memCnt == memCnt && s.memCntD == memCntD
      modifies `memCnt, `memCntD, `doneD
      ensures BeatsFrom(s, rsp, n)
    {
      doneD := rsp.valid && memCntD == 3;
      memCntD := memCnt;
      if n.memW || n.memR {
        memCnt := (memCnt + 1) % 4;
      }
    }

    /** Flags of the accepted request. */
    method ClockFlags(ghost s: Cache, n: Wires)
      requires s.hitD == hitD && s.victimDirtyD == victimDirtyD
      modifies `newReqD, `hitD, `victimDirtyD, `lfcD
      ensures FlagsFrom(s, n)
    {
      newReqD := n.newReq;
      if n.newReq {
        hitD, victimDirtyD := n.tagMatch, n.victimDirty;
      }
      lfcD := n.lfc;
    }

    /** Pending request. */
    method ClockPending(ghost s: Cache, i: CoreIn, n: Wires, pending: bool)
      requires s.pend == pend && s.clearOnRead == clearOnRead && pending == (s.doneD && s.pend.active)
      modifies `pend, `clearOnRead
      ensures PendFrom(s, i, n)
    {
      var storePend := pending && pend.req.write;
      if n.newReq && !n.tagMatch {
        pend := Pending(true, StartAddr(i.req.addr), i.req, n.victim);
      } else if clearOnRead || storePend {
        pend := CLEAR_PEND;
      }
      clearOnRead := pending && !storePend;
    }

    /** All registers. */
    method ClockRegs(ghost s: Cache, i: CoreIn, rsp: MemRsp, n: Wires)
      requires Valid() && RegsAre(s) && n.victim < geo.ways && n.lfc.way < geo.ways && n.lfc.word < 16
      modifies this
      ensures Valid() && RegsFrom(s, i, rsp, n)
    {
      hide Low, High, Join, Pow2, BusAddr, LookupWay, VictimWay, TagHit;
      var pending := doneD && pend.active;
      ClockState(s, n);
      ClockBeats(s, rsp, n);
      ClockFlags(s, n);
      ClockPending(s, i, n, pending);
    }

    ghost predicate ArraysNext(s: Cache, i: CoreIn, rsp: MemRsp)
      requires WellFormed(s)
      reads this, aValid, aDirty, aTag, aLru, bank, bankData
    {
      && Rows(aLru) == LruNext(s, i)
      && Rows(bank) == BankNext(s, i, rsp) && bankData[..] == DoutNext(s, i, rsp)
      && Rows(aValid) == ValidNext(s, i, rsp) && Rows(aTag) == TagNext(s, i, rsp) && Rows(aDirty) == DirtyNext(s, i, rsp)
    }

    /** The wires are those of state s. */
    ghost predicate WiresOf(s: Cache, i: CoreIn, n: Wires)
      requires WellFormed(s)
    {
      && n.newReq == NewReq(s, i) && n.tagMatch == ReqHits(s, i.req) && n.victim == CrVictim(s, i.req)
      && n.victimDirty == s.dirty[n.victim][SetIdx(i.req.addr, s.geo)] && n.lfc == Lfc(s, i)
      && n.memW == MemW(s, i).Some? && n.memR == MemR(s).Some?
    }

    lemma ViewIsNext(s: Cache, i: CoreIn, rsp: MemRsp, n: Wires)
      requires Valid() && WellFormed(s) && s.geo == geo && WiresOf(s, i, n)
      requires RegsFrom(s, i, rsp, n) && ArraysNext(s, i, rsp)
      ensures View() == Next(s, i, rsp)
    {
      hide Low, High, Join, Pow2, BusAddr;
    }

    /** The combinational signals of one cycle. */
    method Sample(i: CoreIn, rsp: MemRsp, ready: bool)
      returns (n: Wires, p: Port, memW: Option<MemWrite>, memR: Option<QuadAddr>)
      requires Valid() && ready == Ready(View())
      ensures WiresOf(View(), i, n) && PortOf(View(), i, rsp, p)
      ensures memW == MemW(View(), i) && memR == MemR(View())
    {
      hide Low, High, Join, Pow2, BusAddr, LookupWay, VictimWay;
      var tagMatch, way, victim := Lookup(i.req);
      var newReq := i.valid && ready;
      var victimDirty := aDirty[victim, SetIdx(i.req.addr, geo)];
      var lfc, stc := Targets(i, rsp, way);
      memW, memR := MemPort(i, lfc);
      n := Wires(newReq, tagMatch, victim, victimDirty, lfc, memW.Some?, memR.Some?);
      var storeHit, miss := newReq && tagMatch && i.req.write, newReq && !tagMatch;
      var cacheStore, a, mask, din := BankPort(i, rsp, lfc, stc, storeHit, miss, memW.Some?);
      p := Port(way, cacheStore, a, stc, mask, din);
    }

    ghost predicate PortOf(s: Cache, i: CoreIn, rsp: MemRsp, p: Port)
      requires WellFormed(s)
    {
      && p.way == CrWay(s, i.req) && p.stc == Stc(s, i, rsp)
      && p.cacheStore == CacheStore(s, i, rsp) && p.a == BankAddr(s, i, rsp)
      && p.mask == BankMask(s, i, rsp) && p.din == BankDin(s, i, rsp)
    }

    /** All arrays. */
    method ClockArrays(ghost s: Cache, i: CoreIn, rsp: MemRsp, n: Wires, p: Port)
      requires Valid() && s == View() && WiresOf(s, i, n) && PortOf(s, i, rsp, p)
      modifies aValid, aDirty, aTag, aLru, bank, bankData
      ensures ArraysNext(s, i, rsp)
    {
      hide Low, High, Join, Pow2, BusAddr, LookupWay, VictimWay;
      var hit := n.newReq && n.tagMatch;
      ClockLru(s, i, hit, p.way);
      ClockBanks(p.a, p.cacheStore, p.stc.way, p.mask, p.din);
      hide Rows, ValidNext, TagNext, DirtyNext, LruNext;
      BanksAreNext(s, i, rsp, p, Rows(bank), bankData[..]);
      ClockMeta(s, i, rsp, p.stc, hit && i.req.write);
    }

    lemma BanksAreNext(s: Cache, i: CoreIn, rsp: MemRsp, p: Port, b: Table<Quad>, d: seq<Quad>)
      requires WellFormed(s) && PortOf(s, i, rsp, p) && p.a < 4 * s.geo.Sets() && p.stc.way < s.geo.ways && |p.mask| == 16
      requires d == seq(s.geo.ways, w requires 0 <= w < s.geo.ways => s.bank[w][p.a])
      requires b == if p.cacheStore then Put(s.bank, p.stc.way, p.a, ByteWrite(s.bank[p.stc.way][p.a], p.mask, p.din)) else s.bank
      ensures b == BankNext(s, i, rsp) && d == DoutNext(s, i, rsp)
    {
      hide Low, High, Join, Pow2, BusAddr, BankAddr, BankMask, BankDin, Stc, CacheStore;
    }

    /** One clock edge with the core request and the memory response of the cycle; returns what the
        cache drives in that cycle. */
    method Clock(i: CoreIn, rsp: MemRsp)
      returns (ready: bool, rspValid: bool, rspData: Word32, memW: Option<MemWrite>, memR: Option<QuadAddr>)
      requires Valid()
      modifies this, aValid, aDirty, aTag, aLru, bank, bankData
      ensures Valid() && View() == Next(old(View()), i, rsp)
      ensures ready == Ready(old(View())) && rspValid == RspValid(old(View())) && rspData == RspData(old(View()))
      ensures memW == MemW(old(View()), i) && memR == MemR(old(View()))
    {
      hide Low, High, Join, Pow2, BusAddr, Next, MemW, MemR, RspData, Ready, RspValid, PortOf, LookupWay, VictimWay, TagHit, CrWay,
        CrVictim, ReqHits, Lfc, LruNext, BankNext, DoutNext, ValidNext, TagNext, DirtyNext;
      ghost var s := View();
      ready, rspValid, rspData := Drive();
      var n, p;
      n, p, memW, memR := Sample(i, rsp, ready);
      ClockArrays(s, i, rsp, n, p);
      ClockRegs(s, i, rsp, n);
      ViewIsNext(s, i, rsp, n);
    }
  }
}
