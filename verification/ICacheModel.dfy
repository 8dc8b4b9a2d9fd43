/** Instruction cache: registers, combinational signals and the state after the next clock edge. Tags
    and ranks are looked up as in the data cache; the recency update is one cycle late, and a miss
    invalidates whatever line the request port points at in the cycle after it. */
module ICacheModel {
  import opened Options
  import opened BitSlices
  import opened MemTypes
  import opened DCacheModel

  type WordAddr = a: nat | a < 32768

  datatype FetchIn = FetchIn(valid: bool, addr: WordAddr)

  datatype IFsm = IcReset | IcReady | IcMiss
  datatype IPending = IPending(active: bool, startAddr: QuadAddr, addr: WordAddr, way: nat)
  datatype Access = Access(way: nat, set_: nat)

  datatype ICache = ICache(
    geo: Geometry,
    valid: Table<bool>, tag: Table<nat>, lru: Table<nat>, bank: Table<Quad>, dout: seq<Quad>,
    victimD: nat, newReqD: bool, hitD: bool, crD: WordAddr, pend: IPending,
    memCnt: Cnt, memCntD: Cnt, doneD: bool, updateLruD: bool, lcaD: Access,
    wayD: nat, wordD: Cnt, fsm: IFsm)

  const CLEAR_IPEND := IPending(false, 0, 0, 0)

  ghost predicate Formed(s: ICache) {
    && ValidGeometry(s.geo)
    && Shape(s.valid, s.geo.ways, s.geo.Sets()) && Shape(s.tag, s.geo.ways, s.geo.Sets())
    && Shape(s.lru, s.geo.ways, s.geo.Sets()) && Shape(s.bank, s.geo.ways, 4 * s.geo.Sets())
    && |s.dout| == s.geo.ways
    && s.victimD < s.geo.ways && s.pend.way < s.geo.ways && s.wayD < s.geo.ways
    && s.lcaD.way < s.geo.ways && s.lcaD.set_ < s.geo.Sets()
  }

  // ---------------------------------------------------------------------------------------
  // Address fields

  function FetchLine(a: WordAddr): (l: nat) ensures l < MEM_LINES { a / 16 }
  function FetchSet(a: WordAddr, g: Geometry): (x: nat) ensures x < g.Sets() { Low(FetchLine(a), g.idxBits) }
  function FetchTag(a: WordAddr, g: Geometry): nat { High(FetchLine(a), g.idxBits) }
  function BlockStart(a: WordAddr): QuadAddr { a / 4 - a / 4 % 4 }

  // ---------------------------------------------------------------------------------------
  // Lookup

  function WayOf(s: ICache, a: WordAddr): (w: nat)
    requires Formed(s)
    ensures w < s.geo.ways
  {
    LookupWay(s.geo, s.valid, s.tag, FetchSet(a, s.geo), FetchTag(a, s.geo), s.geo.ways)
  }
  function VictimOf(s: ICache, a: WordAddr): (w: nat)
    requires Formed(s)
    ensures w < s.geo.ways
  {
    VictimWay(s.geo, s.valid, s.tag, s.lru, FetchSet(a, s.geo), FetchTag(a, s.geo), s.geo.ways)
  }
  predicate Cached(s: ICache, a: WordAddr)
    requires Formed(s)
  {
    TagHit(s.valid, s.tag, WayOf(s, a), FetchSet(a, s.geo), FetchTag(a, s.geo))
  }

  // ---------------------------------------------------------------------------------------
  // Handshake

  predicate MissedD(s: ICache) { s.newReqD && !s.hitD }
  predicate IReady(s: ICache) { s.fsm.IcReady? && (s.pend.active || !MissedD(s)) }
  predicate IRspValid(s: ICache) { s.fsm.IcReady? && (s.pend.active || (s.newReqD && s.hitD)) }
  predicate ClearPending(s: ICache) { s.fsm.IcReady? && s.pend.active }
  predicate SavePending(s: ICache) { s.fsm.IcReady? && !s.pend.active && MissedD(s) }
  predicate Accepts(s: ICache, i: FetchIn) { i.valid && IReady(s) }
  predicate FetchHit(s: ICache, i: FetchIn) requires Formed(s) { Accepts(s, i) && Cached(s, i.addr) }
  predicate FillDone(s: ICache) { s.doneD && s.pend.active }
  predicate LastBeat(s: ICache, rsp: MemRsp) { rsp.valid && s.memCntD == 3 }
  predicate FillWrite(s: ICache, rsp: MemRsp) { rsp.valid && s.fsm.IcMiss? }

  /** The memory read of the cycle. */
  function IMemR(s: ICache): Option<QuadAddr> {
    if SavePending(s) then Some(BlockStart(s.crD))
    else if s.fsm.IcMiss? && s.memCnt > 0 then Some(BusAddr(s.pend.startAddr + s.memCnt))
    else None
  }

  /** The address whose word the banks are asked for. */
  function ReadAddr(s: ICache, i: FetchIn): WordAddr {
    if s.pend.active && !ClearPending(s) then s.pend.addr else i.addr
  }
  function ReadWay(s: ICache, i: FetchIn): (w: nat)
    requires Formed(s)
    ensures w < s.geo.ways
  {
    if s.pend.active && !ClearPending(s) then s.pend.way else WayOf(s, i.addr)
  }

  function BankCell(s: ICache, i: FetchIn, rsp: MemRsp): (a: nat)
    requires Formed(s)
    ensures a < 4 * s.geo.Sets()
  {
    if FillWrite(s, rsp) then 4 * FetchSet(s.pend.addr, s.geo) + s.memCntD
    else 4 * FetchSet(ReadAddr(s, i), s.geo) + ReadAddr(s, i) / 4 % 4
  }

  function RspWord(s: ICache): Word32
    requires Formed(s)
  {
    WordAt(s.dout[s.wayD], s.wordD)
  }

  // ---------------------------------------------------------------------------------------
  // Next state

  function IBankNext(s: ICache, i: FetchIn, rsp: MemRsp): (b: Table<Quad>)
    requires Formed(s)
    ensures Shape(b, s.geo.ways, 4 * s.geo.Sets())
  {
    if FillWrite(s, rsp) then Put(s.bank, s.pend.way, BankCell(s, i, rsp), rsp.data) else s.bank
  }

  function IDoutNext(s: ICache, i: FetchIn, rsp: MemRsp): (d: seq<Quad>)
    requires Formed(s)
    ensures |d| == s.geo.ways
  {
    seq(s.geo.ways, w requires 0 <= w < s.geo.ways => s.bank[w][BankCell(s, i, rsp)])
  }

  function IValidNext(s: ICache, i: FetchIn, rsp: MemRsp): (v: Table<bool>)
    requires Formed(s)
    ensures Shape(v, s.geo.ways, s.geo.Sets())
  {
    if FillWrite(s, rsp) && LastBeat(s, rsp) then Put(s.valid, s.pend.way, FetchSet(s.pend.addr, s.geo), true)
    else if MissedD(s) then Put(s.valid, VictimOf(s, i.addr), FetchSet(i.addr, s.geo), false)
    else s.valid
  }

  function ITagNext(s: ICache, rsp: MemRsp): (v: Table<nat>)
    requires Formed(s)
    ensures Shape(v, s.geo.ways, s.geo.Sets())
  {
    if FillWrite(s, rsp) && LastBeat(s, rsp) then
      Put(s.tag, s.pend.way, FetchSet(s.pend.addr, s.geo), High(s.pend.startAddr / 4, s.geo.idxBits))
    else s.tag
  }

  /** The recency update works on the access of the cycle before. */
  function ILruNext(s: ICache): (l: Table<nat>)
    requires Formed(s)
    ensures Shape(l, s.geo.ways, s.geo.Sets())
  {
    if s.updateLruD then LruTouch(s.lru, s.geo.ways, s.geo.Sets(), s.lcaD.way, s.lcaD.set_) else s.lru
  }

  function Lca(s: ICache, i: FetchIn): (l: Access)
    requires Formed(s)
    ensures l.way < s.geo.ways && l.set_ < s.geo.Sets()
  {
    if FillDone(s) then Access(s.pend.way, FetchSet(s.pend.addr, s.geo))
    else if FetchHit(s, i) then Access(WayOf(s, i.addr), FetchSet(i.addr, s.geo))
    else Access(0, 0)
  }

  function IPendNext(s: ICache): (p: IPending)
    requires Formed(s)
    ensures p.way < s.geo.ways
  {
    if SavePending(s) then IPending(true, BlockStart(s.crD), s.crD, s.victimD)
    else if ClearPending(s) then CLEAR_IPEND
    else s.pend
  }

  function IFsmNext(s: ICache): IFsm {
    match s.fsm
    case IcReset => IcReady
    case IcReady => if MissedD(s) then IcMiss else IcReady
    case IcMiss => if s.doneD then IcReady else IcMiss
  }

  function INext(s: ICache, i: FetchIn, rsp: MemRsp): (s': ICache)
    requires Formed(s)
    ensures Formed(s') && s'.geo == s.geo
  {
    ICache(
      s.geo, IValidNext(s, i, rsp), ITagNext(s, rsp), ILruNext(s), IBankNext(s, i, rsp), IDoutNext(s, i, rsp),
      VictimOf(s, i.addr), Accepts(s, i),
      if Accepts(s, i) then FetchHit(s, i) else s.hitD,
      if Accepts(s, i) then i.addr else s.crD,
      IPendNext(s),
      if IMemR(s).Some? then (s.memCnt + 1) % 4 else s.memCnt, s.memCnt, LastBeat(s, rsp),
      FetchHit(s, i) || FillDone(s), Lca(s, i),
      ReadWay(s, i), ReadAddr(s, i) % 4, IFsmNext(s))
  }

  ghost predicate IAfterReset(s: ICache) {
    && Formed(s)
    && (forall w, x :: 0 <= w < s.geo.ways && 0 <= x < s.geo.Sets() ==>
        !s.valid[w][x] && s.tag[w][x] == 0 && s.lru[w][x] == w)
    && s.victimD == 0 && !s.newReqD && !s.hitD && s.crD == 0 && s.pend == CLEAR_IPEND
    && s.memCnt == s.memCntD == 0 && !s.doneD && !s.updateLruD && s.lcaD == Access(0, 0)
    && s.wayD == 0 && s.wordD == 0 && s.fsm.IcReset?
  }

  // ---------------------------------------------------------------------------------------
  // Instruction cache and its read-only memory port

  datatype Fetcher = Fetcher(c: ICache, rsp: MemRsp)

  function IStep(main: MainMemory, y: Fetcher, i: FetchIn): (y': Fetcher)
    requires Formed(y.c)
    ensures Formed(y'.c) && y'.c.geo == y.c.geo
  {
    var r := IMemR(y.c);
    Fetcher(INext(y.c, i, y.rsp), MemRsp(r.Some?, if r.Some? then main[r.value] else y.rsp.data))
  }

  /** The instruction word at an address. */
  function Fetched(main: MainMemory, a: WordAddr): Word32 { WordAt(main[a / 4], a % 4) }
}
