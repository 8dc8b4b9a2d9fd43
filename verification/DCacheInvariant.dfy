/** Data cache: what holds in every reachable state, phase by phase of a miss. */
module DCacheInvariant {
  import opened BitSlices
  import opened MemTypes
  import opened DCacheModel

  lemma AddrLine(a: Addr, g: Geometry)
    ensures Join(TagOf(a, g), SetIdx(a, g), g.idxBits) == LineOf(a)
    ensures StartAddr(a) == 4 * LineOf(a)
  {
    JoinSlices(LineOf(a), g.idxBits);
  }

  ghost predicate Refilling(s: Cache) { s.fsm.DcMiss? && !s.doneD }

  function PendSet(s: Cache): (x: nat)
    requires WellFormed(s)
    ensures x < s.geo.Sets()
  {
    SetIdx(s.pend.req.addr, s.geo)
  }

  /** The victim way while the beats of the new line overwrite it: its valid bit is still set,
      but its tag and its data no longer belong together. */
  ghost predicate Dropped(s: Cache, w: nat, x: nat)
    requires WellFormed(s)
  {
    Refilling(s) && w == s.pend.way && x == PendSet(s)
  }

  /** Beat k of the line a bank holds for set x. */
  function Beat(bank: seq<Quad>, x: nat, k: nat): Quad requires k < 4 && 4 * x + 4 <= |bank| { bank[4 * x + k] }

  /** The first n beats of a cached line equal a line of main memory. */
  ghost predicate BeatsMatch(bank: seq<Quad>, x: nat, main: MainMemory, line: nat, n: nat)
    requires 4 * x + 4 <= |bank| && line < MEM_LINES && n <= 4
  {
    forall k :: 0 <= k < n ==> Beat(bank, x, k) == main[4 * line + k]
  }

  ghost predicate TagsInRange(s: Cache) requires WellFormed(s) {
    forall w, x :: 0 <= w < s.geo.ways && 0 <= x < s.geo.Sets() ==>
      Join(s.tag[w][x], x, s.geo.idxBits) < MEM_LINES
  }

  /** Two valid ways of a set never share a tag. */
  ghost predicate NoDuplicates(s: Cache) requires WellFormed(s) {
    forall v, w, x :: 0 <= v < w < s.geo.ways && 0 <= x < s.geo.Sets() && s.valid[v][x] && s.valid[w][x] ==>
      s.tag[v][x] != s.tag[w][x]
  }

  ghost predicate DirtyIsValid(s: Cache) requires WellFormed(s) {
    forall w, x :: 0 <= w < s.geo.ways && 0 <= x < s.geo.Sets() && s.dirty[w][x] ==> s.valid[w][x]
  }

  /** Every clean valid line that is not being refilled equals main memory. */
  ghost predicate CleanIsMemory(y: System) requires WellFormed(y.c) && TagsInRange(y.c) {
    forall w, x :: 0 <= w < y.c.geo.ways && 0 <= x < y.c.geo.Sets()
                   && y.c.valid[w][x] && !y.c.dirty[w][x] && !Dropped(y.c, w, x) ==>
      BeatsMatch(y.c.bank[w], x, y.main, Join(y.c.tag[w][x], x, y.c.geo.idxBits), 4)
  }

  ghost predicate Lines(y: System) {
    && WellFormed(y.c) && TagsInRange(y.c)
    && NoDuplicates(y.c) && DirtyIsValid(y.c) && CleanIsMemory(y)
  }

  /** Registers that describe a miss still being served. */
  ghost predicate InMiss(y: System) requires WellFormed(y.c) {
    var s := y.c;
    && s.pend.active && Aligned(s.pend.req) && s.pend.startAddr == StartAddr(s.pend.req.addr)
    && !s.clearOnRead && !s.doneD
    && !TagMatch(s, PendSet(s), TagOf(s.pend.req.addr, s.geo))
  }

  ghost predicate IdleOk(y: System) requires WellFormed(y.c) {
    var s := y.c;
    && s.memCnt == s.memCntD == s.evictCnt == 0 && !s.doneD && !y.rsp.valid
    && s.pend.active == s.clearOnRead
    && (s.clearOnRead ==> !s.newReqD && s.fsm.DcReady? && !s.pend.req.write)
    && (s.fsm.DcReset? ==> !s.newReqD)
  }

  ghost predicate MissStartOk(y: System) requires WellFormed(y.c) {
    var s := y.c;
    && InMiss(y) && s.memCnt == s.memCntD == 0 && s.evictCnt == 1 && !y.rsp.valid
    && s.victimDirtyD == s.dirty[s.pend.way][PendSet(s)]
    && s.dout[s.pend.way] == s.bank[s.pend.way][4 * PendSet(s)]
  }

  ghost predicate EvictOk(y: System) requires WellFormed(y.c) && TagsInRange(y.c) {
    var s := y.c;
    var e := s.memCntD + 1;
    && InMiss(y) && !s.newReqD && !y.rsp.valid
    && s.memCnt == e % 4 && s.evictCnt == (e + 1) % 4
    && s.dirty[s.pend.way][PendSet(s)]
    && (e < 4 ==> s.dout[s.pend.way] == s.bank[s.pend.way][4 * PendSet(s) + e])
    && BeatsMatch(s.bank[s.pend.way], PendSet(s), y.main,
                  Join(s.tag[s.pend.way][PendSet(s)], PendSet(s), s.geo.idxBits), e)
  }

  ghost predicate RefillOk(y: System) requires WellFormed(y.c) {
    var s := y.c;
    var j := s.memCntD;
    && InMiss(y) && !s.newReqD
    && s.memCnt == (j + 1) % 4 && s.evictCnt == 1
    && y.rsp == MemRsp(true, y.main[4 * LineOf(s.pend.req.addr) + j])
    && BeatsMatch(s.bank[s.pend.way], PendSet(s), y.main, LineOf(s.pend.req.addr), j)
  }

  ghost predicate CompleteOk(y: System) requires WellFormed(y.c) {
    var s := y.c;
    && s.memCnt == s.memCntD == 0 && s.evictCnt == 1 && !y.rsp.valid
    && !s.newReqD && !s.clearOnRead && s.pend.active && Aligned(s.pend.req)
    && TagHit(s.valid, s.tag, s.pend.way, PendSet(s), TagOf(s.pend.req.addr, s.geo))
  }

  ghost predicate Inv(y: System) {
    && Lines(y)
    && match y.c.fsm
       case DcReset => IdleOk(y)
       case DcReady => if MissD(y.c) then MissStartOk(y) else IdleOk(y)
       case DcEvict => EvictOk(y)
       case DcMiss => if y.c.doneD then CompleteOk(y) else RefillOk(y)
  }

  // ---------------------------------------------------------------------------------------
  // Lookup

  /** The lookup finds a matching way among the first n if there is one. */
  lemma {:induction false} LookupFinds(g: Geometry, valid: Table<bool>, tags: Table<nat>, x: nat, tag: nat, n: nat)
    requires ValidGeometry(g) && Shape(valid, g.ways, g.Sets()) && Shape(tags, g.ways, g.Sets())
    requires n <= g.ways && x < g.Sets()
    ensures var w := LookupWay(g, valid, tags, x, tag, n);
      (exists v: nat :: v < n && TagHit(valid, tags, v, x, tag)) ==> w < n && TagHit(valid, tags, w, x, tag)
  {
    if n > 0 && !TagHit(valid, tags, n - 1, x, tag) {
      LookupFinds(g, valid, tags, x, tag, n - 1);
      forall v: nat | v < n && TagHit(valid, tags, v, x, tag)
        ensures v < n - 1
      {
      }
    }
  }

  lemma HitIffTagMatch(s: Cache, r: Req)
    requires WellFormed(s)
    ensures ReqHits(s, r) <==> TagMatch(s, SetIdx(r.addr, s.geo), TagOf(r.addr, s.geo))
  {
    LookupFinds(s.geo, s.valid, s.tag, SetIdx(r.addr, s.geo), TagOf(r.addr, s.geo), s.geo.ways);
  }

  // ---------------------------------------------------------------------------------------
  // The invariant is established by reset and kept by every clock edge

  lemma ResetEstablishes(y: System)
    requires AfterReset(y.c) && !y.rsp.valid
    ensures Inv(y)
  {
    var k := y.c.geo.idxBits;
    forall w, x | 0 <= w < y.c.geo.ways && 0 <= x < y.c.geo.Sets()
      ensures Join(y.c.tag[w][x], x, k) < MEM_LINES
    {
      JoinBound(0, x, k);
      Pow2Monotone(k, 10);
      assert Pow2(10) == 1024;
    }
  }

  /** The registers that no phase of a miss touches before its last beat. */
  ghost predicate ArraysHeld(s: Cache, s': Cache) {
    && s'.geo == s.geo && s'.valid == s.valid && s'.tag == s.tag && s'.dirty == s.dirty
  }

  /** One clock edge at the start of a miss: the first write-back beat or the first read. */
  ghost predicate MissStartEdge(y: System, y': System) requires WellFormed(y.c) && WellFormed(y'.c) {
    var s, s', p := y.c, y'.c, y.c.pend;
    var start := BusAddr(4 * Join(s.tag[p.way][PendSet(s)], PendSet(s), s.geo.idxBits));
    && ArraysHeld(s, s') && s'.bank == s.bank && s'.pend == p
    && !s'.newReqD && !s'.doneD && !s'.clearOnRead
    && s'.memCnt == 1 && s'.memCntD == 0
    && if s.victimDirtyD then
         && s'.fsm.DcEvict? && s'.evictCnt == 2 && !y'.rsp.valid
         && s'.dout[p.way] == s.bank[p.way][4 * PendSet(s) + 1]
         && y'.main == y.main[start := s.dout[p.way]]
       else
         && s'.fsm.DcMiss? && s'.evictCnt == 1
         && y'.main == y.main && y'.rsp == MemRsp(true, y.main[p.startAddr])
  }

  lemma MissStartStep(y: System, i: CoreIn)
    requires Inv(y) && y.c.fsm.DcReady? && MissD(y.c)
    ensures MissStartEdge(y, Step(y, i))
  {
    hide Low, High, Join, Pow2, BusAddr, LruNext, LookupWay, VictimWay, BankMask, BankDin, Aligned, NoDuplicates, DirtyIsValid, CleanIsMemory;
  }

  /** Two different valid entries stand for different lines. */
  lemma LinesDiffer(s: Cache, v: nat, x: nat, w: nat, z: nat)
    requires WellFormed(s) && NoDuplicates(s)
    requires v < s.geo.ways && w < s.geo.ways && x < s.geo.Sets() && z < s.geo.Sets()
    requires s.valid[v][x] && s.valid[w][z] && (v != w || x != z)
    ensures Join(s.tag[v][x], x, s.geo.idxBits) != Join(s.tag[w][z], z, s.geo.idxBits)
  {
    if Join(s.tag[v][x], x, s.geo.idxBits) == Join(s.tag[w][z], z, s.geo.idxBits) {
      JoinInjective(s.tag[v][x], x, s.tag[w][z], z, s.geo.idxBits);
    }
  }

  /** A write-back beat of a dirty way disturbs no clean line. */
  lemma WriteBackKeepsClean(y: System, y': System, v: nat, x: nat, e: nat)
    requires Lines(y) && WellFormed(y'.c) && ArraysHeld(y.c, y'.c) && y'.c.bank == y.c.bank
    requires !Refilling(y.c)
    requires v < y.c.geo.ways && x < y.c.geo.Sets() && y.c.dirty[v][x] && e < 4
    requires y'.main == y.main[4 * Join(y.c.tag[v][x], x, y.c.geo.idxBits) + e := Beat(y.c.bank[v], x, e)]
    ensures Lines(y')
  {
    var s := y.c;
    forall w, z | 0 <= w < s.geo.ways && 0 <= z < s.geo.Sets() && s.valid[w][z] && !s.dirty[w][z]
      ensures BeatsMatch(s.bank[w], z, y'.main, Join(s.tag[w][z], z, s.geo.idxBits), 4)
    {
      LinesDiffer(s, w, z, v, x);
    }
  }

  /** A core store into a valid way leaves the line dirty and disturbs no other line. */
  lemma StoreKeepsLines(y: System, y': System, v: nat, x: nat, k: nat, q: Quad)
    requires Lines(y) && WellFormed(y'.c) && y'.c.geo == y.c.geo && y'.main == y.main
    requires !Refilling(y.c) && !Refilling(y'.c)
    requires v < y.c.geo.ways && x < y.c.geo.Sets() && y.c.valid[v][x] && k < 4
    requires y'.c.valid == y.c.valid && y'.c.tag == y.c.tag
    requires y'.c.dirty == Put(y.c.dirty, v, x, true) && y'.c.bank == Put(y.c.bank, v, 4 * x + k, q)
    ensures Lines(y')
  {
    var s, s' := y.c, y'.c;
    forall w, z | 0 <= w < s.geo.ways && 0 <= z < s.geo.Sets() && s.valid[w][z] && !s'.dirty[w][z]
      ensures BeatsMatch(s'.bank[w], z, y'.main, Join(s.tag[w][z], z, s.geo.idxBits), 4)
    {
      assert BeatsMatch(s.bank[w], z, y.main, Join(s.tag[w][z], z, s.geo.idxBits), 4);
      forall b | 0 <= b < 4
        ensures Beat(s'.bank[w], z, b) == Beat(s.bank[w], z, b)
      {
      }
    }
  }

  lemma MissStartKeeps(y: System, y': System)
    requires Inv(y) && y.c.fsm.DcReady? && MissD(y.c)
    requires WellFormed(y'.c) && MissStartEdge(y, y')
    ensures Inv(y')
  {
    hide Low, High, Join, Pow2, BusAddr;
    var s, v, x := y.c, y.c.pend.way, PendSet(y.c);
    AddrLine(s.pend.req.addr, s.geo);
    if s.victimDirtyD {
      assert s.dout[v] == Beat(s.bank[v], x, 0);
      BeatAddr(Join(s.tag[v][x], x, s.geo.idxBits), 0);
      WriteBackKeepsClean(y, y', v, x, 0);
    } else {
      assert y'.c.bank == s.bank;
    }
  }

  /** One clock edge of the write-back phase: the next beat, or the first read after the last one. */
  ghost predicate EvictEdge(y: System, y': System) requires WellFormed(y.c) && WellFormed(y'.c) {
    var s, s', p := y.c, y'.c, y.c.pend;
    var start := BusAddr(4 * Join(s.tag[p.way][PendSet(s)], PendSet(s), s.geo.idxBits));
    && ArraysHeld(s, s') && s'.bank == s.bank && s'.pend == p
    && !s'.newReqD && !s'.doneD && !s'.clearOnRead
    && s'.memCnt == (s.memCnt + 1) % 4 && s'.memCntD == s.memCnt
    && if s.memCntD < 3 then
         && s'.fsm.DcEvict? && s'.evictCnt == (s.evictCnt + 1) % 4 && !y'.rsp.valid
         && s'.dout[p.way] == s.bank[p.way][4 * PendSet(s) + s.evictCnt]
         && y'.main == y.main[BusAddr(start + s.memCnt) := s.dout[p.way]]
       else
         && s'.fsm.DcMiss? && s'.evictCnt == s.evictCnt
         && y'.main == y.main && y'.rsp == MemRsp(true, y.main[p.startAddr])
  }

  lemma EvictStep(y: System, i: CoreIn)
    requires Inv(y) && y.c.fsm.DcEvict?
    ensures EvictEdge(y, Step(y, i))
  {
    hide Low, High, Join, Pow2, BusAddr;
  }

  lemma BeatAddr(line: nat, k: nat)
    requires line < MEM_LINES && k < 4
    ensures BusAddr(4 * line) == 4 * line
    ensures BusAddr(4 * line + k) == 4 * line + k
  {
  }

  /** The beat written back is the next beat of the victim's line. */
  lemma EvictWrites(y: System, y': System)
    requires Inv(y) && y.c.fsm.DcEvict? && y.c.memCntD < 3
    requires WellFormed(y'.c) && EvictEdge(y, y')
    ensures var s, v, x := y.c, y.c.pend.way, PendSet(y.c);
      y'.main == y.main[4 * Join(s.tag[v][x], x, s.geo.idxBits) + s.memCnt := Beat(s.bank[v], x, s.memCnt)]
  {
    hide Low, High, Join, Pow2, BusAddr;
    var s, v, x := y.c, y.c.pend.way, PendSet(y.c);
    BeatAddr(Join(s.tag[v][x], x, s.geo.idxBits), s.memCnt);
  }

  lemma EvictBeatWritten(y: System, y': System)
    requires Inv(y) && y.c.fsm.DcEvict? && y.c.memCntD < 3
    requires Lines(y') && EvictEdge(y, y')
    ensures EvictOk(y')
  {
    hide Low, High, Join, Pow2, BusAddr;
    EvictWrites(y, y');
  }

  lemma LinesAfterWriteBack(y: System, y': System)
    requires Inv(y) && y.c.fsm.DcEvict? && y.c.memCntD == 3
    requires WellFormed(y'.c) && EvictEdge(y, y')
    ensures Lines(y')
  {
  }

  lemma EvictKeeps(y: System, y': System)
    requires Inv(y) && y.c.fsm.DcEvict?
    requires WellFormed(y'.c) && EvictEdge(y, y')
    ensures Inv(y')
  {
    hide Low, High, Join, Pow2, BusAddr;
    if y.c.memCntD < 3 {
      EvictBeatLines(y, y');
      EvictBeatWritten(y, y');
    } else {
      LinesAfterWriteBack(y, y');
      AddrLine(y.c.pend.req.addr, y.c.geo);
    }
  }

  lemma EvictBeatLines(y: System, y': System)
    requires Inv(y) && y.c.fsm.DcEvict? && y.c.memCntD < 3
    requires WellFormed(y'.c) && EvictEdge(y, y')
    ensures Lines(y')
  {
    hide Low, High, Join, Pow2, BusAddr;
    EvictWrites(y, y');
    WriteBackKeepsClean(y, y', y.c.pend.way, PendSet(y.c), y.c.memCnt);
  }

  /** One clock edge of the refill phase: a beat lands in the victim way, the next one is read. */
  ghost predicate RefillEdge(y: System, y': System) requires WellFormed(y.c) && WellFormed(y'.c) {
    var s, s', p, x := y.c, y'.c, y.c.pend, PendSet(y.c);
    && s'.geo == s.geo && s'.pend == p
    && s'.bank == Put(s.bank, p.way, 4 * x + s.memCntD, y.rsp.data)
    && s'.valid == (if s.memCntD == 3 then Put(s.valid, p.way, x, true) else s.valid)
    && s'.dirty == (if s.memCntD == 3 then Put(s.dirty, p.way, x, false) else s.dirty)
    && s'.tag == (if s.memCntD == 3 then Put(s.tag, p.way, x, High(p.startAddr / 4, s.geo.idxBits)) else s.tag)
    && !s'.newReqD && s'.doneD == (s.memCntD == 3) && !s'.clearOnRead
    && s'.memCnt == (if s.memCnt > 0 then (s.memCnt + 1) % 4 else 0) && s'.memCntD == s.memCnt
    && s'.fsm.DcMiss? && s'.evictCnt == s.evictCnt && y'.main == y.main
    && y'.rsp.valid == (s.memCnt > 0)
    && (s.memCnt > 0 ==> y'.rsp.data == y.main[BusAddr(p.startAddr + s.memCnt)])
  }

  lemma RefillStep(y: System, i: CoreIn)
    requires Inv(y) && y.c.fsm.DcMiss? && !y.c.doneD
    ensures RefillEdge(y, Step(y, i))
  {
    hide Low, High, Join, Pow2, BusAddr;
    RefillBank(y, i);
  }

  lemma RefillBank(y: System, i: CoreIn)
    requires WellFormed(y.c) && y.rsp.valid
    ensures BankNext(y.c, i, y.rsp) == Put(y.c.bank, y.c.pend.way, 4 * PendSet(y.c) + y.c.memCntD, y.rsp.data)
  {
    FullWrite(y.c.bank[y.c.pend.way][4 * PendSet(y.c) + y.c.memCntD], y.rsp.data);
  }

  lemma FullWrite(q: Quad, d: Quad)
    ensures ByteWrite(q, seq(16, _ => true), d) == d
  {
  }

  /** A beat put into the banks lands in its own cell and nowhere else. */
  lemma BeatLands(g: Geometry, bank: Table<Quad>, v: nat, x: nat, j: nat, q: Quad)
    requires Shape(bank, g.ways, 4 * g.Sets()) && v < g.ways && x < g.Sets() && j < 4
    ensures var bank' := Put(bank, v, 4 * x + j, q);
      && Shape(bank', g.ways, 4 * g.Sets())
      && forall w, z, b :: 0 <= w < g.ways && 0 <= z < g.Sets() && 0 <= b < 4 ==>
           Beat(bank'[w], z, b) == if w == v && z == x && b == j then q else Beat(bank[w], z, b)
  {
    hide Pow2;
  }

  /** Lines other than the dropped one are untouched by an arriving beat. */
  lemma RefillOthers(y: System, y': System)
    requires Inv(y) && y.c.fsm.DcMiss? && !y.c.doneD
    requires WellFormed(y'.c) && RefillEdge(y, y')
    ensures forall w, z | 0 <= w < y.c.geo.ways && 0 <= z < y.c.geo.Sets()
              && (w != y.c.pend.way || z != PendSet(y.c)) && y.c.valid[w][z] && !y.c.dirty[w][z] ::
              BeatsMatch(y'.c.bank[w], z, y'.main, Join(y.c.tag[w][z], z, y.c.geo.idxBits), 4)
  {
    hide Low, High, Join, Pow2, BusAddr;
    BeatLands(y.c.geo, y.c.bank, y.c.pend.way, PendSet(y.c), y.c.memCntD, y.rsp.data);
  }

  /** The beats received so far are those of the missed line. */
  lemma RefillBeats(y: System, y': System)
    requires Inv(y) && y.c.fsm.DcMiss? && !y.c.doneD
    requires WellFormed(y'.c) && RefillEdge(y, y')
    ensures BeatsMatch(y'.c.bank[y.c.pend.way], PendSet(y.c), y'.main, LineOf(y.c.pend.req.addr), y.c.memCntD + 1)
  {
    hide Low, High, Join, Pow2, BusAddr;
    BeatLands(y.c.geo, y.c.bank, y.c.pend.way, PendSet(y.c), y.c.memCntD, y.rsp.data);
  }

  /** A beat that lands before the last one: the way stays dropped. */
  lemma RefillBeatLines(y: System, y': System)
    requires Inv(y) && y.c.fsm.DcMiss? && !y.c.doneD && y.c.memCntD < 3
    requires WellFormed(y'.c) && RefillEdge(y, y')
    ensures Lines(y')
  {
    hide Low, High, Join, Pow2, BusAddr;
    RefillOthers(y, y');
  }

  lemma RefillBeatOk(y: System, y': System)
    requires Inv(y) && y.c.fsm.DcMiss? && !y.c.doneD && y.c.memCntD < 3
    requires WellFormed(y'.c) && RefillEdge(y, y')
    ensures RefillOk(y')
  {
    hide Low, High, Join, Pow2, BusAddr;
    var s := y.c;
    AddrLine(s.pend.req.addr, s.geo);
    BeatAddr(LineOf(s.pend.req.addr), s.memCnt);
    RefillBeats(y, y');
  }

  /** The last beat: the way now holds the missed line, clean. */
  lemma RefillLastKeeps(y: System, y': System)
    requires Inv(y) && y.c.fsm.DcMiss? && !y.c.doneD && y.c.memCntD == 3
    requires WellFormed(y'.c) && RefillEdge(y, y')
    ensures Inv(y')
  {
    hide Low, High, Join, Pow2, BusAddr;
    var s, s', v, x := y.c, y'.c, y.c.pend.way, PendSet(y.c);
    var tag := TagOf(s.pend.req.addr, s.geo);
    AddrLine(s.pend.req.addr, s.geo);
    RefillOthers(y, y');
    RefillBeats(y, y');
    forall w: nat | w < s.geo.ways && s.valid[w][x]
      ensures s.tag[w][x] != tag
    {
      assert !TagHit(s.valid, s.tag, w, x, tag);
    }
    assert CompleteOk(y');
    assert Lines(y');
  }

  /** The clock edge that performs the pending request on the refilled line. */
  ghost predicate CompleteEdge(y: System, y': System) requires WellFormed(y.c) && WellFormed(y'.c) {
    var s, s', p, x := y.c, y'.c, y.c.pend, PendSet(y.c);
    var a := 4 * x + ByteIdx(p.req.addr) / 16;
    var off := ByteIdx(p.req.addr) % 16;
    && s'.geo == s.geo && s'.valid == s.valid && s'.tag == s.tag
    && !s'.newReqD && !s'.doneD && s'.memCnt == s'.memCntD == s'.evictCnt == 0
    && s'.fsm.DcReady? && y'.main == y.main && !y'.rsp.valid
    && s'.clearOnRead == !p.req.write
    && if p.req.write then
         && s'.bank == Put(s.bank, p.way, a,
              ByteWrite(s.bank[p.way][a], StoreMask(p.req.dtype, off), StoreData(p.req.wdata, off)))
         && s'.dirty == Put(s.dirty, p.way, x, true) && s'.pend == CLEAR_PEND
       else
         && s'.bank == s.bank && s'.dirty == s.dirty && s'.pend == p
         && s'.lfcD == LoadSel(p.req.dtype, false, p.req.addr % 4, p.way, x, WordIdx(p.req.addr))
         && s'.dout[p.way] == s.bank[p.way][4 * x + WordIdx(p.req.addr) / 4]
  }

  lemma CompleteStep(y: System, i: CoreIn)
    requires Inv(y) && y.c.fsm.DcMiss? && y.c.doneD
    ensures CompleteEdge(y, Step(y, i))
  {
    hide Low, High, Join, Pow2, BusAddr;
  }

  lemma CompleteKeeps(y: System, y': System)
    requires Inv(y) && y.c.fsm.DcMiss? && y.c.doneD
    requires WellFormed(y'.c) && CompleteEdge(y, y')
    ensures Inv(y')
  {
    hide Low, High, Join, Pow2, BusAddr;
    var s, p := y.c, y.c.pend;
    if p.req.write {
      StoreKeepsLines(y, y', p.way, PendSet(s), ByteIdx(p.req.addr) / 16,
        ByteWrite(s.bank[p.way][4 * PendSet(s) + ByteIdx(p.req.addr) / 16],
          StoreMask(p.req.dtype, ByteIdx(p.req.addr) % 16), StoreData(p.req.wdata, ByteIdx(p.req.addr) % 16)));
    }
  }

  /** One clock edge with no miss in progress: nothing, a load hit, a store hit, or a new miss. */
  ghost predicate IdleEdge(y: System, i: CoreIn, y': System) requires WellFormed(y.c) && WellFormed(y'.c) {
    IdleArrays(y, i, y') && IdleRegs(y, i, y')
  }

  ghost predicate IdleArrays(y: System, i: CoreIn, y': System) requires WellFormed(y.c) && WellFormed(y'.c) {
    var s, s', r := y.c, y'.c, i.req;
    var x, w, v := SetIdx(r.addr, s.geo), CrWay(s, r), CrVictim(s, r);
    var a := 4 * x + ByteIdx(r.addr) / 16;
    var off := ByteIdx(r.addr) % 16;
    && s'.geo == s.geo && s'.valid == s.valid && s'.tag == s.tag
    && y'.main == y.main && !y'.rsp.valid
    && (if StoreHit(s, i) then
          && s'.bank == Put(s.bank, w, a,
               ByteWrite(s.bank[w][a], StoreMask(r.dtype, off), StoreData(r.wdata, off)))
          && s'.dirty == Put(s.dirty, w, x, true)
        else s'.bank == s.bank && s'.dirty == s.dirty)
    && (Hit(s, i) && !r.write ==> s'.dout[w] == s.bank[w][4 * x + WordIdx(r.addr) / 4])
    && (Miss(s, i) ==> s'.dout[v] == s.bank[v][4 * x])
  }

  ghost predicate IdleRegs(y: System, i: CoreIn, y': System) requires WellFormed(y.c) && WellFormed(y'.c) {
    var s, s', r := y.c, y'.c, i.req;
    var x, w, v := SetIdx(r.addr, s.geo), CrWay(s, r), CrVictim(s, r);
    && s'.fsm.DcReady? && !s'.doneD && !s'.clearOnRead && s'.memCnt == s'.memCntD == 0
    && s'.newReqD == NewReq(s, i) && (NewReq(s, i) ==> s'.hitD == Hit(s, i))
    && s'.evictCnt == (if Miss(s, i) then 1 else 0)
    && s'.lfcD == LoadSel(r.dtype, r.write, r.addr % 4, w, x, WordIdx(r.addr))
    && (if Miss(s, i) then
          && s'.pend == Pending(true, StartAddr(r.addr), r, v)
          && s'.victimDirtyD == s.dirty[v][x]
        else s'.pend == if s.clearOnRead then CLEAR_PEND else s.pend)
  }

  lemma IdleStepArrays(y: System, i: CoreIn)
    requires Inv(y) && (y.c.fsm.DcReset? || (y.c.fsm.DcReady? && !MissD(y.c)))
    ensures IdleArrays(y, i, Step(y, i))
  {
    hide Low, High, Join, Pow2, BusAddr;
  }

  lemma IdleStepRegs(y: System, i: CoreIn)
    requires Inv(y) && (y.c.fsm.DcReset? || (y.c.fsm.DcReady? && !MissD(y.c)))
    ensures IdleRegs(y, i, Step(y, i))
  {
    hide Low, High, Join, Pow2, BusAddr;
  }

  lemma IdleStep(y: System, i: CoreIn)
    requires Inv(y) && (y.c.fsm.DcReset? || (y.c.fsm.DcReady? && !MissD(y.c)))
    ensures IdleEdge(y, i, Step(y, i))
  {
    IdleStepArrays(y, i);
    IdleStepRegs(y, i);
  }

  lemma IdleKeeps(y: System, i: CoreIn, y': System)
    requires Inv(y) && (y.c.fsm.DcReset? || (y.c.fsm.DcReady? && !MissD(y.c)))
    requires i.valid ==> Aligned(i.req)
    requires WellFormed(y'.c) && IdleEdge(y, i, y')
    ensures Inv(y')
  {
    hide Low, High, Join, Pow2, BusAddr;
    var s, r := y.c, i.req;
    var x, w := SetIdx(r.addr, s.geo), CrWay(s, r);
    HitIffTagMatch(s, r);
    if StoreHit(s, i) {
      StoreKeepsLines(y, y', w, x, ByteIdx(r.addr) / 16,
        ByteWrite(s.bank[w][4 * x + ByteIdx(r.addr) / 16],
          StoreMask(r.dtype, ByteIdx(r.addr) % 16), StoreData(r.wdata, ByteIdx(r.addr) % 16)));
    } else {
      assert Lines(y');
    }
  }

  /** Every clock edge keeps the invariant, whatever the core drives. */
  lemma StepKeeps(y: System, i: CoreIn)
    requires Inv(y) && (i.valid ==> Aligned(i.req))
    ensures Inv(Step(y, i))
  {
    hide Low, High, Join, Pow2, BusAddr;
    var y' := Step(y, i);
    if y.c.fsm.DcEvict? {
      EvictStep(y, i);
      EvictKeeps(y, y');
    } else if y.c.fsm.DcMiss? {
      if y.c.doneD {
        CompleteStep(y, i);
        CompleteKeeps(y, y');
      } else {
        RefillStep(y, i);
        if y.c.memCntD < 3 {
          RefillBeatLines(y, y');
          RefillBeatOk(y, y');
        } else {
          RefillLastKeeps(y, y');
        }
      }
    } else if y.c.fsm.DcReady? && MissD(y.c) {
      MissStartStep(y, i);
      MissStartKeeps(y, y');
    } else {
      IdleStep(y, i);
      IdleKeeps(y, i, y');
    }
  }
}
