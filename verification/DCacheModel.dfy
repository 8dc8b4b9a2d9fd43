/** Data cache: the registers, the combinational signals of one cycle and the state after the
    next clock edge. Names follow the signals of the design. */
module DCacheModel {
  import opened Options
  import opened BitSlices
  import opened MemTypes

  /** WAYS is 1 to 32; SETS is the power of two 2^idxBits, 1 to 1024. */
  datatype Geometry = Geometry(ways: nat, idxBits: nat) {
    function Sets(): (n: nat) ensures n >= 1 { Pow2(idxBits) }
  }

  predicate ValidGeometry(g: Geometry) { 1 <= g.ways <= 32 && g.idxBits <= 10 }

  datatype Fsm = DcReset | DcReady | DcMiss | DcEvict

  datatype Pending = Pending(active: bool, startAddr: QuadAddr, req: Req, way: nat)
  datatype LoadSel = LoadSel(dtype: Dtype, write: bool, off: Cnt, way: nat, set_: nat, word: nat)
  datatype StoreSel = StoreSel(dtype: Dtype, way: nat, set_: nat, byteIdx: nat, wdata: Word32)

  datatype Cache = Cache(
    geo: Geometry,
    valid: Table<bool>, dirty: Table<bool>, tag: Table<nat>, lru: Table<nat>,
    bank: Table<Quad>, dout: seq<Quad>,
    pend: Pending,
    newReqD: bool, hitD: bool, victimDirtyD: bool,
    memCnt: Cnt, memCntD: Cnt, doneD: bool, clearOnRead: bool, evictCnt: Cnt,
    lfcD: LoadSel, fsm: Fsm)

  const CLEAR_REQ := Req(0, Byte, false, ZERO_WORD)
  const CLEAR_PEND := Pending(false, 0, CLEAR_REQ, 0)
  const CLEAR_LFC := LoadSel(Byte, false, 0, 0, 0, 0)

  ghost predicate WellFormed(s: Cache) {
    && ValidGeometry(s.geo)
    && Shape(s.valid, s.geo.ways, s.geo.Sets()) && Shape(s.dirty, s.geo.ways, s.geo.Sets())
    && Shape(s.tag, s.geo.ways, s.geo.Sets()) && Shape(s.lru, s.geo.ways, s.geo.Sets())
    && Shape(s.bank, s.geo.ways, 4 * s.geo.Sets()) && |s.dout| == s.geo.ways
    && s.pend.way < s.geo.ways
    && s.lfcD.way < s.geo.ways && s.lfcD.word < 16
  }

  // ---------------------------------------------------------------------------------------
  // Address fields

  function LineOf(a: Addr): (l: nat) ensures l < MEM_LINES { a / 64 }
  function SetIdx(a: Addr, g: Geometry): (i: nat) ensures i < g.Sets() { Low(LineOf(a), g.idxBits) }
  function TagOf(a: Addr, g: Geometry): nat { High(LineOf(a), g.idxBits) }
  function ByteIdx(a: Addr): (i: nat) ensures i < 64 { a % 64 }
  function WordIdx(a: Addr): (i: nat) ensures i < 16 { a / 4 % 16 }
  function StartAddr(a: Addr): QuadAddr { a / 16 - a / 16 % 4 }

  // ---------------------------------------------------------------------------------------
  // Lookup

  predicate TagHit(valid: Table<bool>, tags: Table<nat>, w: nat, set_: nat, tag: nat)
    requires |valid| == |tags| && w < |valid| && set_ < |valid[w]| && set_ < |tags[w]|
  {
    valid[w][set_] && tags[w][set_] == tag
  }

  /** The way a lookup loop finds: the last of the first n that matches, else 0. */
  function LookupWay(g: Geometry, valid: Table<bool>, tags: Table<nat>, set_: nat, tag: nat, n: nat): (w: nat)
    requires ValidGeometry(g) && Shape(valid, g.ways, g.Sets()) && Shape(tags, g.ways, g.Sets())
    requires n <= g.ways && set_ < g.Sets()
    ensures w < g.ways
  {
    if n == 0 then 0
    else if TagHit(valid, tags, n - 1, set_, tag) then n - 1
    else LookupWay(g, valid, tags, set_, tag, n - 1)
  }

  /** The victim the same loop leaves: the last of the first n with the highest rank that does not match. */
  function VictimWay(g: Geometry, valid: Table<bool>, tags: Table<nat>, lru: Table<nat>, set_: nat, tag: nat, n: nat): (w: nat)
    requires ValidGeometry(g) && Shape(valid, g.ways, g.Sets()) && Shape(tags, g.ways, g.Sets()) && Shape(lru, g.ways, g.Sets())
    requires n <= g.ways && set_ < g.Sets()
    ensures w < g.ways
  {
    if n == 0 then 0
    else if !TagHit(valid, tags, n - 1, set_, tag) && lru[n - 1][set_] == g.ways - 1 then n - 1
    else VictimWay(g, valid, tags, lru, set_, tag, n - 1)
  }

  ghost predicate TagMatch(s: Cache, set_: nat, tag: nat)
    requires WellFormed(s) && set_ < s.geo.Sets()
  {
    exists w: nat :: w < s.geo.ways && TagHit(s.valid, s.tag, w, set_, tag)
  }

  function CrWay(s: Cache, r: Req): (w: nat)
    requires WellFormed(s)
    ensures w < s.geo.ways
  {
    LookupWay(s.geo, s.valid, s.tag, SetIdx(r.addr, s.geo), TagOf(r.addr, s.geo), s.geo.ways)
  }
  function CrVictim(s: Cache, r: Req): (w: nat)
    requires WellFormed(s)
    ensures w < s.geo.ways
  {
    VictimWay(s.geo, s.valid, s.tag, s.lru, SetIdx(r.addr, s.geo), TagOf(r.addr, s.geo), s.geo.ways)
  }
  predicate ReqHits(s: Cache, r: Req)
    requires WellFormed(s)
  {
    TagHit(s.valid, s.tag, CrWay(s, r), SetIdx(r.addr, s.geo), TagOf(r.addr, s.geo))
  }

  // ---------------------------------------------------------------------------------------
  // Handshake

  predicate MissD(s: Cache) { s.newReqD && !s.hitD }
  predicate Ready(s: Cache) { s.fsm.DcReady? && (s.clearOnRead || !MissD(s)) }
  predicate RspValid(s: Cache) {
    s.fsm.DcReady? && (s.clearOnRead || (s.newReqD && s.hitD && !s.lfcD.write))
  }
  predicate NewReq(s: Cache, i: CoreIn) { i.valid && Ready(s) }
  predicate Hit(s: Cache, i: CoreIn) requires WellFormed(s) { NewReq(s, i) && ReqHits(s, i.req) }
  predicate Miss(s: Cache, i: CoreIn) requires WellFormed(s) { NewReq(s, i) && !ReqHits(s, i.req) }
  predicate StoreHit(s: Cache, i: CoreIn) requires WellFormed(s) { Hit(s, i) && i.req.write }
  predicate ReqPending(s: Cache) { s.doneD && s.pend.active }
  predicate LoadPend(s: Cache) { ReqPending(s) && !s.pend.req.write }
  predicate StorePend(s: Cache) { ReqPending(s) && s.pend.req.write }
  predicate CacheStore(s: Cache, i: CoreIn, rsp: MemRsp) requires WellFormed(s) {
    rsp.valid || StorePend(s) || StoreHit(s, i)
  }
  predicate MemCntDone(s: Cache) { s.memCntD == 3 }
  predicate TransferDone(s: Cache, rsp: MemRsp) { rsp.valid && MemCntDone(s) }

  // ---------------------------------------------------------------------------------------
  // Selected load and store targets

  function Lfc(s: Cache, i: CoreIn): (l: LoadSel)
    requires WellFormed(s)
    ensures l.way < s.geo.ways && l.set_ < s.geo.Sets() && l.word < 16
  {
    if s.pend.active && !s.clearOnRead then
      LoadSel(s.pend.req.dtype, s.pend.req.write, s.pend.req.addr % 4, s.pend.way,
              SetIdx(s.pend.req.addr, s.geo), WordIdx(s.pend.req.addr))
    else
      LoadSel(i.req.dtype, i.req.write, i.req.addr % 4, CrWay(s, i.req),
              SetIdx(i.req.addr, s.geo), WordIdx(i.req.addr))
  }

  function Stc(s: Cache, i: CoreIn, rsp: MemRsp): (t: StoreSel)
    requires WellFormed(s)
    ensures t.way < s.geo.ways && t.set_ < s.geo.Sets() && t.byteIdx < 64
  {
    if StorePend(s) || rsp.valid then
      StoreSel(s.pend.req.dtype, s.pend.way, SetIdx(s.pend.req.addr, s.geo),
               ByteIdx(s.pend.req.addr), s.pend.req.wdata)
    else
      StoreSel(i.req.dtype, CrWay(s, i.req), SetIdx(i.req.addr, s.geo), ByteIdx(i.req.addr), i.req.wdata)
  }

  /** Byte enables of a core store: a 1-, 2- or 4-byte mask shifted to the byte within the beat. */
  function StoreMask(d: Dtype, off: nat): (m: seq<bool>)
    ensures |m| == 16
    ensures forall k :: 0 <= k < 16 ==> m[k] == (off <= k < off + Size(d))
  {
    seq(16, k => off <= k < off + Size(d))
  }

  /** Store data shifted left by whole bytes into a beat. */
  function StoreData(w: Word32, off: nat): (q: Quad)
    ensures forall k :: 0 <= k < 16 ==> q[k] == if off <= k < off + 4 then w[k - off] else 0
  {
    seq(16, k requires 0 <= k < 16 => if off <= k < off + 4 then w[k - off] else 0)
  }

  function BankMask(s: Cache, i: CoreIn, rsp: MemRsp): (m: seq<bool>)
    requires WellFormed(s)
    ensures |m| == 16
  {
    var t := Stc(s, i, rsp);
    if rsp.valid then seq(16, _ => true) else StoreMask(t.dtype, t.byteIdx % 16)
  }

  function BankDin(s: Cache, i: CoreIn, rsp: MemRsp): Quad
    requires WellFormed(s)
  {
    var t := Stc(s, i, rsp);
    if rsp.valid then rsp.data else StoreData(t.wdata, t.byteIdx % 16)
  }

  // ---------------------------------------------------------------------------------------
  // Main memory ports

  /** Addresses on the memory bus wrap at its width. */
  function BusAddr(n: nat): QuadAddr { n % MEM_QUADS }

  function VictimStart(s: Cache, i: CoreIn): QuadAddr
    requires WellFormed(s)
  {
    var l := Lfc(s, i);
    BusAddr(4 * Join(s.tag[l.way][l.set_], l.set_, s.geo.idxBits))
  }

  function MemW(s: Cache, i: CoreIn): Option<MemWrite>
    requires WellFormed(s)
  {
    var data := s.dout[Lfc(s, i).way];
    if s.fsm.DcReady? && !s.clearOnRead && MissD(s) && s.victimDirtyD then
      Some(MemWrite(VictimStart(s, i), data))
    else if s.fsm.DcEvict? && !MemCntDone(s) then
      Some(MemWrite(BusAddr(VictimStart(s, i) + s.memCnt), data))
    else None
  }

  function MemR(s: Cache): Option<QuadAddr> {
    if s.fsm.DcReady? && !s.clearOnRead && MissD(s) && !s.victimDirtyD then Some(s.pend.startAddr)
    else if s.fsm.DcMiss? && s.memCnt > 0 then Some(BusAddr(s.pend.startAddr + s.memCnt))
    else if s.fsm.DcEvict? && MemCntDone(s) then Some(s.pend.startAddr)
    else None
  }

  // ---------------------------------------------------------------------------------------
  // Load steering

  function WordAt(q: Quad, k: nat): Word32 requires k < 4 { q[4 * k..4 * k + 4] }

  function ByteAt(w: Word32, k: nat): byte { if k < 4 then w[k] else 0 }

  /** Shift and extend the selected word by the two low address bits and the access type. */
  function LoadSteer(rd: Word32, off: Cnt, d: Dtype): Word32 {
    match d
    case Word => rd
    case Byte => var f := if ByteAt(rd, off) >= 128 then 255 else 0; [ByteAt(rd, off), f, f, f]
    case UByte => [ByteAt(rd, off), 0, 0, 0]
    case Half =>
      var f := if ByteAt(rd, off + 1) >= 128 then 255 else 0; [ByteAt(rd, off), ByteAt(rd, off + 1), f, f]
    case UHalf => [ByteAt(rd, off), ByteAt(rd, off + 1), 0, 0]
  }

  function RspData(s: Cache): Word32
    requires WellFormed(s)
  {
    LoadSteer(WordAt(s.dout[s.lfcD.way], s.lfcD.word % 4), s.lfcD.off, s.lfcD.dtype)
  }

  // ---------------------------------------------------------------------------------------
  // LRU ranks

  function TouchRank(rank: nat, touched: nat, isTouched: bool): nat {
    if isTouched then 0 else if rank < touched then rank + 1 else rank
  }

  function LruTouch(lru: Table<nat>, ways: nat, sets: nat, way: nat, set_: nat): (l: Table<nat>)
    requires Shape(lru, ways, sets) && way < ways && set_ < sets
    ensures Shape(l, ways, sets)
    ensures forall w, x :: 0 <= w < ways && 0 <= x < sets ==>
      l[w][x] == if x != set_ then lru[w][x]
                 else if ways == 2 then (if w == way then 0 else 1)
                 else TouchRank(lru[w][x], lru[way][x], w == way)
  {
    seq(ways, w requires 0 <= w < ways =>
      lru[w][set_ := if ways == 2 then (if w == way then 0 else 1)
                     else TouchRank(lru[w][set_], lru[way][set_], w == way)])
  }

  predicate LcaPend(s: Cache, i: CoreIn) requires WellFormed(s) { ReqPending(s) && !Hit(s, i) }

  function LruNext(s: Cache, i: CoreIn): (l: Table<nat>)
    requires WellFormed(s)
    ensures Shape(l, s.geo.ways, s.geo.Sets())
  {
    if !Hit(s, i) && !ReqPending(s) then s.lru
    else if LcaPend(s, i) then
      LruTouch(s.lru, s.geo.ways, s.geo.Sets(), s.pend.way, SetIdx(s.pend.req.addr, s.geo))
    else
      LruTouch(s.lru, s.geo.ways, s.geo.Sets(), CrWay(s, i.req), SetIdx(i.req.addr, s.geo))
  }

  // ---------------------------------------------------------------------------------------
  // Next state

  function BankAddr(s: Cache, i: CoreIn, rsp: MemRsp): (a: nat)
    requires WellFormed(s)
    ensures a < 4 * s.geo.Sets()
  {
    var t := Stc(s, i, rsp);
    var l := Lfc(s, i);
    if CacheStore(s, i, rsp) then t.set_ * 4 + (if rsp.valid then s.memCntD else t.byteIdx / 16)
    else l.set_ * 4 + (if Miss(s, i) || MemW(s, i).Some? then s.evictCnt else l.word / 4)
  }

  function BankNext(s: Cache, i: CoreIn, rsp: MemRsp): (b: Table<Quad>)
    requires WellFormed(s)
    ensures Shape(b, s.geo.ways, 4 * s.geo.Sets())
  {
    if CacheStore(s, i, rsp) then
      var t := Stc(s, i, rsp);
      var a := BankAddr(s, i, rsp);
      Put(s.bank, t.way, a, ByteWrite(s.bank[t.way][a], BankMask(s, i, rsp), BankDin(s, i, rsp)))
    else s.bank
  }

  function DoutNext(s: Cache, i: CoreIn, rsp: MemRsp): (d: seq<Quad>)
    requires WellFormed(s)
    ensures |d| == s.geo.ways
  {
    var a := BankAddr(s, i, rsp);
    seq(s.geo.ways, w requires 0 <= w < s.geo.ways => s.bank[w][a])
  }

  function ValidNext(s: Cache, i: CoreIn, rsp: MemRsp): (v: Table<bool>)
    requires WellFormed(s)
    ensures Shape(v, s.geo.ways, s.geo.Sets())
  {
    var t := Stc(s, i, rsp);
    if TransferDone(s, rsp) then Put(s.valid, t.way, t.set_, true) else s.valid
  }

  function TagPend(s: Cache): nat requires WellFormed(s) { High(s.pend.startAddr / 4, s.geo.idxBits) }

  function TagNext(s: Cache, i: CoreIn, rsp: MemRsp): (v: Table<nat>)
    requires WellFormed(s)
    ensures Shape(v, s.geo.ways, s.geo.Sets())
  {
    var t := Stc(s, i, rsp);
    if TransferDone(s, rsp) then Put(s.tag, t.way, t.set_, TagPend(s)) else s.tag
  }

  function DirtyNext(s: Cache, i: CoreIn, rsp: MemRsp): (d: Table<bool>)
    requires WellFormed(s)
    ensures Shape(d, s.geo.ways, s.geo.Sets())
  {
    var t := Stc(s, i, rsp);
    if StorePend(s) || StoreHit(s, i) then Put(s.dirty, t.way, t.set_, true)
    else if TransferDone(s, rsp) then Put(s.dirty, t.way, t.set_, false)
    else s.dirty
  }

  function PendNext(s: Cache, i: CoreIn): (p: Pending)
    requires WellFormed(s)
    ensures p.way < s.geo.ways
  {
    if Miss(s, i) then Pending(true, StartAddr(i.req.addr), i.req, CrVictim(s, i.req))
    else if s.clearOnRead || StorePend(s) then CLEAR_PEND
    else s.pend
  }

  function FsmNext(s: Cache): Fsm {
    match s.fsm
    case DcReset => DcReady
    case DcReady => if MissD(s) then (if s.victimDirtyD then DcEvict else DcMiss) else DcReady
    case DcMiss => if ReqPending(s) then DcReady else DcMiss
    case DcEvict => if MemCntDone(s) then DcMiss else DcEvict
  }

  function EvictCntNext(s: Cache, i: CoreIn): Cnt
    requires WellFormed(s)
  {
    if s.fsm.DcMiss? && FsmNext(s).DcReady? then 0
    else if Miss(s, i) || MemW(s, i).Some? then (s.evictCnt + 1) % 4
    else s.evictCnt
  }

  function Next(s: Cache, i: CoreIn, rsp: MemRsp): (s': Cache)
    requires WellFormed(s)
    ensures WellFormed(s') && s'.geo == s.geo
  {
    Cache(
      geo := s.geo,
      valid := ValidNext(s, i, rsp),
      dirty := DirtyNext(s, i, rsp),
      tag := TagNext(s, i, rsp),
      lru := LruNext(s, i),
      bank := BankNext(s, i, rsp),
      dout := DoutNext(s, i, rsp),
      pend := PendNext(s, i),
      newReqD := NewReq(s, i),
      hitD := if NewReq(s, i) then Hit(s, i) else s.hitD,
      victimDirtyD := if NewReq(s, i) then s.dirty[CrVictim(s, i.req)][SetIdx(i.req.addr, s.geo)] else s.victimDirtyD,
      memCnt := if MemR(s).Some? || MemW(s, i).Some? then (s.memCnt + 1) % 4 else s.memCnt,
      memCntD := s.memCnt,
      doneD := TransferDone(s, rsp),
      clearOnRead := LoadPend(s),
      evictCnt := EvictCntNext(s, i),
      lfcD := Lfc(s, i),
      fsm := FsmNext(s))
  }

  /** The registers after reset; bank contents and bank outputs are whatever they were. */
  ghost predicate AfterReset(s: Cache) {
    && WellFormed(s)
    && (forall w, x :: 0 <= w < s.geo.ways && 0 <= x < s.geo.Sets() ==>
        !s.valid[w][x] && !s.dirty[w][x] && s.tag[w][x] == 0 && s.lru[w][x] == w)
    && s.pend == CLEAR_PEND && !s.newReqD && !s.hitD && !s.victimDirtyD
    && s.memCnt == s.memCntD == s.evictCnt == 0 && !s.doneD && !s.clearOnRead
    && s.lfcD == CLEAR_LFC && s.fsm.DcReset?
  }

  // ---------------------------------------------------------------------------------------
  // Cache and main memory together

  datatype System = System(c: Cache, main: MainMemory, rsp: MemRsp)

  function Step(y: System, i: CoreIn): (y': System)
    requires WellFormed(y.c)
    ensures WellFormed(y'.c) && y'.c.geo == y.c.geo
  {
    var (main, rsp) := MemStep(y.main, y.rsp, MemW(y.c, i), MemR(y.c));
    System(Next(y.c, i, y.rsp), main, rsp)
  }
}
