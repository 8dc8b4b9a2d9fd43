/** Data cache: cache and main memory together are indistinguishable from a flat byte memory. */
module DCacheRefinement {
  import opened Options
  import opened BitSlices
  import opened MemTypes
  import opened FlatSpec
  import opened DCacheModel
  import opened DCacheInvariant

  // ---------------------------------------------------------------------------------------
  // The flat memory a cache and its main memory stand for

  /** The way that currently backs an address, if any: a matching way that is not being refilled. */
  ghost predicate Backed(s: Cache, a: Addr) requires WellFormed(s) {
    var x, tag := SetIdx(a, s.geo), TagOf(a, s.geo);
    var w := LookupWay(s.geo, s.valid, s.tag, x, tag, s.geo.ways);
    TagHit(s.valid, s.tag, w, x, tag) && !Dropped(s, w, x)
  }

  ghost function ByteOf(y: System, a: Addr): byte requires WellFormed(y.c) {
    var x := SetIdx(a, y.c.geo);
    if Backed(y.c, a) then Beat(y.c.bank[LookupWay(y.c.geo, y.c.valid, y.c.tag, x, TagOf(a, y.c.geo), y.c.geo.ways)], x, a % 64 / 16)[a % 16]
    else y.main[a / 16][a % 16]
  }

  /** Memory contents without the store that a miss may still hold back. */
  ghost function Base(y: System): (m: Flat)
    requires WellFormed(y.c)
    ensures forall a :: 0 <= a < MEM_BYTES ==> m[a] == ByteOf(y, a)
  {
    seq(MEM_BYTES, a requires 0 <= a < MEM_BYTES => ByteOf(y, a))
  }

  /** With unique tags, any matching way is the one the lookup finds. */
  lemma LookupUnique(s: Cache, w: nat, x: nat, tag: nat)
    requires WellFormed(s) && NoDuplicates(s) && w < s.geo.ways && x < s.geo.Sets()
    requires TagHit(s.valid, s.tag, w, x, tag)
    ensures LookupWay(s.geo, s.valid, s.tag, x, tag, s.geo.ways) == w
  {
    LookupFinds(s.geo, s.valid, s.tag, x, tag, s.geo.ways);
  }

  lemma LookupCongruent(s: Cache, s': Cache, x: nat, tag: nat, n: nat)
    requires WellFormed(s) && WellFormed(s') && s'.geo == s.geo && n <= s.geo.ways && x < s.geo.Sets()
    requires forall w :: 0 <= w < n ==> TagHit(s'.valid, s'.tag, w, x, tag) == TagHit(s.valid, s.tag, w, x, tag)
    ensures LookupWay(s'.geo, s'.valid, s'.tag, x, tag, n) == LookupWay(s.geo, s.valid, s.tag, x, tag, n)
  {
  }

  /** An address that some valid entry stands for is backed by exactly that entry. */
  lemma HolderOf(s: Cache, a: Addr)
    requires WellFormed(s) && NoDuplicates(s)
    ensures forall w :: 0 <= w < s.geo.ways && TagHit(s.valid, s.tag, w, SetIdx(a, s.geo), TagOf(a, s.geo)) ==>
      LookupWay(s.geo, s.valid, s.tag, SetIdx(a, s.geo), TagOf(a, s.geo), s.geo.ways) == w
  {
    forall w | 0 <= w < s.geo.ways && TagHit(s.valid, s.tag, w, SetIdx(a, s.geo), TagOf(a, s.geo))
      ensures LookupWay(s.geo, s.valid, s.tag, SetIdx(a, s.geo), TagOf(a, s.geo), s.geo.ways) == w
    {
      LookupUnique(s, w, SetIdx(a, s.geo), TagOf(a, s.geo));
    }
  }

  lemma QuadOf(a: Addr)
    ensures a / 16 == 4 * LineOf(a) + a % 64 / 16
    ensures ByteIdx(a) / 16 == a % 64 / 16 && ByteIdx(a) % 16 == a % 16
    ensures WordIdx(a) / 4 == a % 64 / 16 && 4 * (WordIdx(a) % 4) + a % 4 == a % 16
  {
    QuadInLine(a);
    WordInLine(a);
  }

  lemma QuadInLine(a: nat)
    ensures a / 16 == 4 * (a / 64) + a % 64 / 16 && a % 64 % 16 == a % 16
  {
    var l, r := a / 64, a % 64;
    assert a == 64 * l + r;
    assert r == 16 * (r / 16) + r % 16;
  }

  lemma WordInLine(a: nat)
    ensures a / 4 % 16 / 4 == a % 64 / 16 && 4 * (a / 4 % 16 % 4) + a % 4 == a % 16
  {
    var l, b, c := a / 64, a % 64 / 16, a % 16;
    QuadInLine(a);
    DivMod16(4 * l + b, c);
    var w, d := c / 4, c % 4;
    assert a == 16 * (4 * l + b) + c && c == 4 * w + d;
    DivMod4(16 * l + (4 * b + w), d);
    DivMod16(l, 4 * b + w);
    DivMod4(b, w);
  }

  lemma DivMod4(q: nat, r: nat)
    requires r < 4
    ensures (4 * q + r) / 4 == q && (4 * q + r) % 4 == r
  {
  }

  lemma DivMod16(q: nat, r: nat)
    requires r < 16
    ensures (16 * q + r) / 16 == q && (16 * q + r) % 16 == r
  {
  }

  // ---------------------------------------------------------------------------------------
  // The flat memory through the phases of a miss

  lemma WriteBackKeepsByte(y: System, y': System, v: nat, x: nat, e: nat, a: Addr)
    requires Lines(y) && WellFormed(y'.c) && ArraysHeld(y.c, y'.c) && y'.c.bank == y.c.bank && y'.c.pend == y.c.pend
    requires !Refilling(y.c) && !Refilling(y'.c)
    requires v < y.c.geo.ways && x < y.c.geo.Sets() && y.c.dirty[v][x] && e < 4
    requires y'.main == y.main[4 * Join(y.c.tag[v][x], x, y.c.geo.idxBits) + e := Beat(y.c.bank[v], x, e)]
    ensures ByteOf(y', a) == ByteOf(y, a)
  {
    hide Low, High, Join, Pow2, BusAddr;
    var s := y.c;
    AddrLine(a, s.geo);
    QuadOf(a);
    LookupCongruent(s, y'.c, SetIdx(a, s.geo), TagOf(a, s.geo), s.geo.ways);
    var line := Join(s.tag[v][x], x, s.geo.idxBits);
    if LineOf(a) == line {
      JoinInjective(s.tag[v][x], x, TagOf(a, s.geo), SetIdx(a, s.geo), s.geo.idxBits);
      HolderOf(s, a);
      assert TagHit(s.valid, s.tag, v, SetIdx(a, s.geo), TagOf(a, s.geo));
    }
  }

  /** Dropping a victim whose line equals main memory. */
  lemma DropKeepsByte(y: System, y': System, a: Addr)
    requires Lines(y) && WellFormed(y'.c) && ArraysHeld(y.c, y'.c) && y'.c.bank == y.c.bank && y'.c.pend == y.c.pend
    requires !Refilling(y.c) && y'.main == y.main
    requires y.c.valid[y.c.pend.way][PendSet(y.c)] ==>
      BeatsMatch(y.c.bank[y.c.pend.way], PendSet(y.c), y.main,
        Join(y.c.tag[y.c.pend.way][PendSet(y.c)], PendSet(y.c), y.c.geo.idxBits), 4)
    ensures ByteOf(y', a) == ByteOf(y, a)
  {
    var s := y.c;
    AddrLine(a, s.geo);
    QuadOf(a);
    LookupCongruent(s, y'.c, SetIdx(a, s.geo), TagOf(a, s.geo), s.geo.ways);
  }

  lemma WriteBackBase(y: System, y': System, v: nat, x: nat, e: nat)
    requires Lines(y) && WellFormed(y'.c) && ArraysHeld(y.c, y'.c) && y'.c.bank == y.c.bank && y'.c.pend == y.c.pend
    requires !Refilling(y.c) && !Refilling(y'.c)
    requires v < y.c.geo.ways && x < y.c.geo.Sets() && y.c.dirty[v][x] && e < 4
    requires y'.main == y.main[4 * Join(y.c.tag[v][x], x, y.c.geo.idxBits) + e := Beat(y.c.bank[v], x, e)]
    ensures Base(y') == Base(y)
  {
    forall a | 0 <= a < MEM_BYTES
      ensures ByteOf(y', a) == ByteOf(y, a)
    {
      WriteBackKeepsByte(y, y', v, x, e, a);
    }
  }

  lemma DropBase(y: System, y': System)
    requires Lines(y) && WellFormed(y'.c) && ArraysHeld(y.c, y'.c) && y'.c.bank == y.c.bank && y'.c.pend == y.c.pend
    requires !Refilling(y.c) && y'.main == y.main
    requires y.c.valid[y.c.pend.way][PendSet(y.c)] ==>
      BeatsMatch(y.c.bank[y.c.pend.way], PendSet(y.c), y.main,
        Join(y.c.tag[y.c.pend.way][PendSet(y.c)], PendSet(y.c), y.c.geo.idxBits), 4)
    ensures Base(y') == Base(y)
  {
    forall a | 0 <= a < MEM_BYTES
      ensures ByteOf(y', a) == ByteOf(y, a)
    {
      DropKeepsByte(y, y', a);
    }
  }

  lemma MissStartBase(y: System, y': System)
    requires Inv(y) && y.c.fsm.DcReady? && MissD(y.c)
    requires WellFormed(y'.c) && MissStartEdge(y, y')
    ensures Base(y') == Base(y)
  {
    hide Low, High, Join, Pow2, BusAddr;
    var s, v, x := y.c, y.c.pend.way, PendSet(y.c);
    if s.victimDirtyD {
      BeatAddr(Join(s.tag[v][x], x, s.geo.idxBits), 0);
      WriteBackBase(y, y', v, x, 0);
    } else {
      DropBase(y, y');
    }
  }

  lemma EvictBase(y: System, y': System)
    requires Inv(y) && y.c.fsm.DcEvict?
    requires WellFormed(y'.c) && EvictEdge(y, y')
    ensures Base(y') == Base(y)
  {
    hide Low, High, Join, Pow2, BusAddr;
    var s, v, x := y.c, y.c.pend.way, PendSet(y.c);
    if s.memCntD < 3 {
      EvictWrites(y, y');
      WriteBackBase(y, y', v, x, s.memCnt);
    } else {
      DropBase(y, y');
    }
  }

  lemma RefillBeatKeepsByte(y: System, y': System, a: Addr)
    requires Inv(y) && y.c.fsm.DcMiss? && !y.c.doneD && y.c.memCntD < 3
    requires WellFormed(y'.c) && RefillEdge(y, y')
    ensures ByteOf(y', a) == ByteOf(y, a)
  {
    hide Low, High, Join, Pow2, BusAddr;
    var s := y.c;
    BeatLands(s.geo, s.bank, s.pend.way, PendSet(s), s.memCntD, y.rsp.data);
    LookupCongruent(s, y'.c, SetIdx(a, s.geo), TagOf(a, s.geo), s.geo.ways);
  }

  /** The last beat rewrites the tag: the new line is in the way, equal to main memory. */
  lemma RequestedByte(y: System, y': System, a: Addr)
    requires Inv(y) && y.c.fsm.DcMiss? && !y.c.doneD && y.c.memCntD == 3
    requires WellFormed(y'.c) && RefillEdge(y, y') && Inv(y')
    requires SetIdx(a, y.c.geo) == PendSet(y.c) && TagOf(a, y.c.geo) == TagOf(y.c.pend.req.addr, y.c.geo)
    ensures ByteOf(y', a) == ByteOf(y, a)
  {
    hide Low, High, Join, Pow2, BusAddr, LookupWay, VictimWay;
    var s, s', v, x := y.c, y'.c, y.c.pend.way, PendSet(y.c);
    AddrLine(a, s.geo);
    AddrLine(s.pend.req.addr, s.geo);
    QuadOf(a);
    HolderOf(s', a);
    RefillBeats(y, y');
    assert !TagHit(s.valid, s.tag, LookupWay(s.geo, s.valid, s.tag, x, TagOf(a, s.geo), s.geo.ways), x, TagOf(a, s.geo));
    assert TagHit(s'.valid, s'.tag, v, x, TagOf(a, s.geo));
  }

  /** The old line of the way is in main memory, and all other lines stay where they are. */
  lemma OtherByte(y: System, y': System, a: Addr)
    requires Inv(y) && y.c.fsm.DcMiss? && !y.c.doneD && y.c.memCntD == 3
    requires WellFormed(y'.c) && RefillEdge(y, y') && Inv(y')
    requires SetIdx(a, y.c.geo) != PendSet(y.c) || TagOf(a, y.c.geo) != TagOf(y.c.pend.req.addr, y.c.geo)
    ensures ByteOf(y', a) == ByteOf(y, a)
  {
    hide Low, High, Join, Pow2, BusAddr, LookupWay, VictimWay;
    var s, s', v, x := y.c, y'.c, y.c.pend.way, PendSet(y.c);
    var z, tag := SetIdx(a, s.geo), TagOf(a, s.geo);
    AddrLine(s.pend.req.addr, s.geo);
    BeatLands(s.geo, s.bank, v, x, 3, y.rsp.data);
    HolderOf(s, a);
    HolderOf(s', a);
    LookupFinds(s.geo, s.valid, s.tag, z, tag, s.geo.ways);
    LookupFinds(s'.geo, s'.valid, s'.tag, z, tag, s.geo.ways);
    forall w: nat | w < s.geo.ways && (w != v || z != x)
      ensures TagHit(s'.valid, s'.tag, w, z, tag) == TagHit(s.valid, s.tag, w, z, tag)
    {
    }
  }

  lemma RefillLastKeepsByte(y: System, y': System, a: Addr)
    requires Inv(y) && y.c.fsm.DcMiss? && !y.c.doneD && y.c.memCntD == 3
    requires WellFormed(y'.c) && RefillEdge(y, y') && Inv(y')
    ensures ByteOf(y', a) == ByteOf(y, a)
  {
    hide Low, High, Join, Pow2, BusAddr, LookupWay, ByteOf, RefillEdge;
    if SetIdx(a, y.c.geo) == PendSet(y.c) && TagOf(a, y.c.geo) == TagOf(y.c.pend.req.addr, y.c.geo) {
      RequestedByte(y, y', a);
    } else {
      OtherByte(y, y', a);
    }
  }

  lemma RefillBase(y: System, y': System)
    requires Inv(y) && y.c.fsm.DcMiss? && !y.c.doneD
    requires WellFormed(y'.c) && RefillEdge(y, y') && Inv(y')
    ensures Base(y') == Base(y)
  {
    forall a | 0 <= a < MEM_BYTES
      ensures ByteOf(y', a) == ByteOf(y, a)
    {
      if y.c.memCntD < 3 {
        RefillBeatKeepsByte(y, y', a);
      } else {
        RefillLastKeepsByte(y, y', a);
      }
    }
  }

  // ---------------------------------------------------------------------------------------
  // Byte steering

  /** A masked, shifted core store into a backing way is a store to the flat memory. */
  lemma StoreSteering(y: System, y': System, w: nat, r: Req)
    requires Lines(y) && WellFormed(y'.c) && y'.c.geo == y.c.geo && y'.main == y.main && Aligned(r)
    requires !Refilling(y.c) && !Refilling(y'.c)
    requires w < y.c.geo.ways && TagHit(y.c.valid, y.c.tag, w, SetIdx(r.addr, y.c.geo), TagOf(r.addr, y.c.geo))
    requires y'.c.valid == y.c.valid && y'.c.tag == y.c.tag
    requires var a := 4 * SetIdx(r.addr, y.c.geo) + ByteIdx(r.addr) / 16;
      y'.c.bank == Put(y.c.bank, w, a, ByteWrite(y.c.bank[w][a],
        StoreMask(r.dtype, ByteIdx(r.addr) % 16), StoreData(r.wdata, ByteIdx(r.addr) % 16)))
    ensures Base(y') == StoreTo(Base(y), r)
  {
    forall a | 0 <= a < MEM_BYTES
      ensures Base(y')[a] == StoreTo(Base(y), r)[a]
    {
      StoreSteeringByte(y, y', w, r, a);
    }
  }

  lemma StoreSteeringByte(y: System, y': System, w: nat, r: Req, a: Addr)
    requires Lines(y) && WellFormed(y'.c) && y'.c.geo == y.c.geo && y'.main == y.main && Aligned(r)
    requires !Refilling(y.c) && !Refilling(y'.c)
    requires w < y.c.geo.ways && TagHit(y.c.valid, y.c.tag, w, SetIdx(r.addr, y.c.geo), TagOf(r.addr, y.c.geo))
    requires y'.c.valid == y.c.valid && y'.c.tag == y.c.tag
    requires var a := 4 * SetIdx(r.addr, y.c.geo) + ByteIdx(r.addr) / 16;
      y'.c.bank == Put(y.c.bank, w, a, ByteWrite(y.c.bank[w][a],
        StoreMask(r.dtype, ByteIdx(r.addr) % 16), StoreData(r.wdata, ByteIdx(r.addr) % 16)))
    ensures ByteOf(y', a) == if r.addr <= a < r.addr + Size(r.dtype) then r.wdata[a - r.addr] else ByteOf(y, a)
  {
    hide Low, High, Join, Pow2, BusAddr;
    var s := y.c;
    LookupCongruent(s, y'.c, SetIdx(a, s.geo), TagOf(a, s.geo), s.geo.ways);
    SameBeat(r, a);
    QuadOf(r.addr);
    if LineOf(a) == LineOf(r.addr) {
      HolderOf(s, a);
      assert TagHit(s.valid, s.tag, w, SetIdx(a, s.geo), TagOf(a, s.geo));
    } else {
      OtherLine(y, y', w, r.addr, a);
    }
  }

  /** A write into the beats of one line leaves the bytes of other lines alone. */
  lemma OtherLine(y: System, y': System, w: nat, a0: Addr, a: Addr)
    requires Lines(y) && WellFormed(y'.c) && y'.c.geo == y.c.geo && y'.main == y.main
    requires !Refilling(y.c) && !Refilling(y'.c)
    requires w < y.c.geo.ways && TagHit(y.c.valid, y.c.tag, w, SetIdx(a0, y.c.geo), TagOf(a0, y.c.geo))
    requires y'.c.valid == y.c.valid && y'.c.tag == y.c.tag && LineOf(a) != LineOf(a0)
    requires forall v, k :: 0 <= v < y.c.geo.ways && 0 <= k < 4 * y.c.geo.Sets() ==>
      (v == w && k / 4 == SetIdx(a0, y.c.geo)) || y'.c.bank[v][k] == y.c.bank[v][k]
    ensures ByteOf(y', a) == ByteOf(y, a)
  {
    hide Low, High, Join, Pow2, BusAddr;
    var s := y.c;
    LookupCongruent(s, y'.c, SetIdx(a, s.geo), TagOf(a, s.geo), s.geo.ways);
    AddrLine(a, s.geo);
    AddrLine(a0, s.geo);
  }

  /** An aligned access stays within one beat of one line. */
  lemma SameBeat(r: Req, a: Addr)
    requires Aligned(r)
    ensures r.addr <= a < r.addr + Size(r.dtype) <==>
      LineOf(a) == LineOf(r.addr) && a % 64 / 16 == r.addr % 64 / 16 &&
      r.addr % 16 <= a % 16 < r.addr % 16 + Size(r.dtype)
    ensures r.addr <= a < r.addr + Size(r.dtype) ==> a - r.addr == a % 16 - r.addr % 16
    ensures r.addr % 16 + Size(r.dtype) <= 16
  {
    AlignedInBeat(r);
    BeatParts(a);
    BeatParts(r.addr);
    BeatInterval(a / 16, r.addr / 16, a % 16, r.addr % 16, Size(r.dtype));
    BeatsUnique(a / 64, a % 64 / 16, r.addr / 64, r.addr % 64 / 16);
  }

  lemma BeatParts(a: nat)
    ensures a == 16 * (a / 16) + a % 16 && a / 16 == 4 * (a / 64) + a % 64 / 16 && a % 64 / 16 < 4
  {
    QuadInLine(a);
  }

  lemma BeatsUnique(l: nat, k: nat, m: nat, j: nat)
    requires k < 4 && j < 4
    ensures 4 * l + k == 4 * m + j <==> l == m && k == j
  {
  }

  lemma BeatInterval(p: nat, q: nat, c: nat, d: nat, n: nat)
    requires c < 16 && d + n <= 16
    ensures 16 * q + d <= 16 * p + c < 16 * q + d + n <==> p == q && d <= c < d + n
  {
  }

  lemma AlignedInBeat(r: Req)
    requires Aligned(r)
    ensures r.addr % 16 + Size(r.dtype) <= 16
  {
  }

  /** The word picked from the bank output, shifted and extended, is the load from flat memory. */
  lemma LoadSteering(y: System, w: nat, r: Req, q: Quad)
    requires Lines(y) && !Refilling(y.c) && Aligned(r)
    requires w < y.c.geo.ways && TagHit(y.c.valid, y.c.tag, w, SetIdx(r.addr, y.c.geo), TagOf(r.addr, y.c.geo))
    requires q == Beat(y.c.bank[w], SetIdx(r.addr, y.c.geo), WordIdx(r.addr) / 4)
    ensures LoadSteer(WordAt(q, WordIdx(r.addr) % 4), r.addr % 4, r.dtype) == LoadFrom(Base(y), r)
  {
    hide Low, High, Join, Pow2, BusAddr;
    AlignedInBeat(r);
    var bs := Base(y)[r.addr..r.addr + Size(r.dtype)];
    forall k | 0 <= k < |bs|
      ensures bs[k] == q[r.addr % 16 + k]
    {
      LoadedByte(y, w, r, q, r.addr + k);
    }
    SteerExtends(q, r, bs);
  }

  lemma LoadedByte(y: System, w: nat, r: Req, q: Quad, a: Addr)
    requires Lines(y) && !Refilling(y.c) && Aligned(r)
    requires w < y.c.geo.ways && TagHit(y.c.valid, y.c.tag, w, SetIdx(r.addr, y.c.geo), TagOf(r.addr, y.c.geo))
    requires q == Beat(y.c.bank[w], SetIdx(r.addr, y.c.geo), WordIdx(r.addr) / 4)
    requires r.addr <= a < r.addr + Size(r.dtype) && r.addr % 16 + Size(r.dtype) <= 16
    ensures ByteOf(y, a) == q[r.addr % 16 + (a - r.addr)]
  {
    hide Low, High, Join, Pow2, BusAddr;
    SameBeat(r, a);
    QuadOf(r.addr);
    HolderOf(y.c, a);
    assert LineOf(a) == LineOf(r.addr);
  }

  lemma SteerExtends(q: Quad, r: Req, bs: seq<byte>)
    requires Aligned(r) && |bs| == Size(r.dtype)
    requires r.addr % 16 + Size(r.dtype) <= 16
    requires forall k :: 0 <= k < |bs| ==> bs[k] == q[r.addr % 16 + k]
    ensures LoadSteer(WordAt(q, WordIdx(r.addr) % 4), r.addr % 4, r.dtype) == Extend(bs, Unsigned(r.dtype))
  {
    var rd, off := WordAt(q, WordIdx(r.addr) % 4), r.addr % 4;
    QuadOf(r.addr);
    forall k | 0 <= k < |bs|
      ensures ByteAt(rd, off + k) == bs[k]
    {
    }
    var w := LoadSteer(rd, off, r.dtype);
    assert bs == w[..|bs|];
  }

  // ---------------------------------------------------------------------------------------
  // One clock edge

  /** The flat memory: a store counts from the edge at which it is accepted, even when it waits
      for a refill. */
  ghost function Abs(y: System): Flat
    requires WellFormed(y.c) && (y.c.pend.active ==> Aligned(y.c.pend.req))
  {
    if y.c.pend.active && y.c.pend.req.write then StoreTo(Base(y), y.c.pend.req) else Base(y)
  }

  /** The data of the load that has been accepted but not yet answered, if there is one. */
  ghost function Outstanding(y: System): Option<Word32>
    requires WellFormed(y.c) && (y.c.pend.active ==> Aligned(y.c.pend.req))
  {
    if RspValid(y.c) then Some(RspData(y.c))
    else if y.c.pend.active && !y.c.pend.req.write then Some(LoadFrom(Base(y), y.c.pend.req))
    else None
  }

  ghost predicate Ok(y: System) { Inv(y) && (y.c.pend.active ==> Aligned(y.c.pend.req)) }

  ghost function SpecOf(y: System): Spec
    requires WellFormed(y.c) && (y.c.pend.active ==> Aligned(y.c.pend.req))
  {
    Spec(Abs(y), Outstanding(y))
  }

  function ObsOf(y: System, i: CoreIn): Obs
    requires WellFormed(y.c)
  {
    Obs(if NewReq(y.c, i) then Some(i.req) else None, if RspValid(y.c) then Some(RspData(y.c)) else None)
  }

  /** What one clock edge must do, seen from the core. */
  ghost predicate Refines(y: System, i: CoreIn, y': System)
    requires Ok(y) && Ok(y')
  {
    SpecStep(SpecOf(y), ObsOf(y, i), SpecOf(y'))
  }

  lemma CompleteRefines(y: System, i: CoreIn, y': System)
    requires Ok(y) && Ok(y') && y.c.fsm.DcMiss? && y.c.doneD && CompleteEdge(y, y')
    requires i.valid ==> Aligned(i.req)
    ensures Refines(y, i, y')
  {
    hide Low, High, Join, Pow2, BusAddr;
    var s, p := y.c, y.c.pend;
    if p.req.write {
      StoreSteering(y, y', p.way, p.req);
    } else {
      assert y'.c.bank == s.bank;
      SameBytesAtRest(y, y');
      LoadSteering(y, p.way, p.req, y'.c.dout[p.way]);
    }
  }

  lemma SameBytesAtRest(y: System, y': System)
    requires WellFormed(y.c) && WellFormed(y'.c) && ArraysHeld(y.c, y'.c) && y'.c.bank == y.c.bank
    requires !Refilling(y.c) && !Refilling(y'.c) && y'.main == y.main
    ensures Base(y') == Base(y)
  {
    forall a | 0 <= a < MEM_BYTES
      ensures ByteOf(y', a) == ByteOf(y, a)
    {
      LookupCongruent(y.c, y'.c, SetIdx(a, y.c.geo), TagOf(a, y.c.geo), y.c.geo.ways);
    }
  }

  lemma IdleRefines(y: System, i: CoreIn, y': System)
    requires Ok(y) && Ok(y') && (y.c.fsm.DcReset? || (y.c.fsm.DcReady? && !MissD(y.c))) && IdleEdge(y, i, y')
    requires i.valid ==> Aligned(i.req)
    ensures Refines(y, i, y')
  {
    hide Low, High, Join, Pow2, BusAddr;
    var s, r := y.c, i.req;
    if StoreHit(s, i) {
      StoreSteering(y, y', CrWay(s, r), r);
    } else {
      SameBytesAtRest(y, y');
      if Hit(s, i) {
        LoadSteering(y, CrWay(s, r), r, y'.c.dout[CrWay(s, r)]);
      }
    }
  }

  /** Every clock edge refines the flat memory. */
  lemma StepRefines(y: System, i: CoreIn)
    requires Ok(y) && (i.valid ==> Aligned(i.req))
    ensures Ok(Step(y, i)) && Refines(y, i, Step(y, i))
  {
    hide Low, High, Join, Pow2, BusAddr;
    var y' := Step(y, i);
    StepKeeps(y, i);
    if y.c.fsm.DcEvict? {
      EvictStep(y, i);
      EvictBase(y, y');
    } else if y.c.fsm.DcMiss? {
      if y.c.doneD {
        CompleteStep(y, i);
        CompleteRefines(y, i, y');
      } else {
        RefillStep(y, i);
        RefillBase(y, y');
      }
    } else if y.c.fsm.DcReady? && MissD(y.c) {
      MissStartStep(y, i);
      MissStartBase(y, y');
    } else {
      IdleStep(y, i);
      IdleRefines(y, i, y');
    }
  }

  // ---------------------------------------------------------------------------------------
  // Whole runs

  ghost predicate AlignedInputs(ins: seq<CoreIn>) {
    forall k :: 0 <= k < |ins| && ins[k].valid ==> Aligned(ins[k].req)
  }

  /** The states of cache and memory over a sequence of cycles. */
  ghost predicate IsRun(ys: seq<System>, ins: seq<CoreIn>) {
    && |ys| == |ins| + 1
    && forall k :: 0 <= k < |ins| ==> WellFormed(ys[k].c) && ys[k + 1] == Step(ys[k], ins[k])
  }

  /** What the core observes over a run. */
  ghost function Trace(ys: seq<System>, ins: seq<CoreIn>): (t: seq<Obs>)
    requires IsRun(ys, ins)
    ensures |t| == |ins|
  {
    seq(|ins|, k requires 0 <= k < |ins| => ObsOf(ys[k], ins[k]))
  }

  /** Every state reached from a good state is good. */
  lemma {:induction false} RunOk(ys: seq<System>, ins: seq<CoreIn>, k: nat)
    requires IsRun(ys, ins) && Ok(ys[0]) && AlignedInputs(ins) && k < |ys|
    ensures Ok(ys[k])
  {
    hide Step, Low, High, Join, Pow2, BusAddr;
    if k > 0 {
      RunOk(ys, ins, k - 1);
      StepRefines(ys[k - 1], ins[k - 1]);
    }
  }

  ghost predicate AllOk(ys: seq<System>) { forall k :: 0 <= k < |ys| ==> Ok(ys[k]) }

  ghost function SpecsOf(ys: seq<System>): (sps: seq<Spec>)
    requires AllOk(ys)
    ensures |sps| == |ys|
  {
    seq(|ys|, k requires 0 <= k < |ys| => SpecOf(ys[k]))
  }

  lemma RunAllOk(ys: seq<System>, ins: seq<CoreIn>)
    requires IsRun(ys, ins) && Ok(ys[0]) && AlignedInputs(ins)
    ensures AllOk(ys)
  {
    hide Step, Low, High, Join, Pow2, BusAddr;
    forall k | 0 <= k < |ys|
      ensures Ok(ys[k])
    {
      RunOk(ys, ins, k);
    }
  }

  /** Every run is a run of the flat memory. */
  lemma RunRefines(ys: seq<System>, ins: seq<CoreIn>)
    requires IsRun(ys, ins) && AllOk(ys) && AlignedInputs(ins)
    ensures SpecRun(SpecsOf(ys), Trace(ys, ins))
  {
    hide Step, Low, High, Join, Pow2, BusAddr;
    forall k | 0 <= k < |ins|
      ensures SpecStep(SpecsOf(ys)[k], Trace(ys, ins)[k], SpecsOf(ys)[k + 1])
    {
      StepRefines(ys[k], ins[k]);
    }
  }

  /** Main memory as flat bytes. */
  function Bytes(m: MainMemory): Flat { seq(MEM_BYTES, a requires 0 <= a < MEM_BYTES => m[a / 16][a % 16]) }

  /** From reset, for every geometry, every main memory and every run: the load data returned are
      the loads of the accepted requests on a flat byte memory, at most the last one still owed. */
  lemma ResetRunRefines(ys: seq<System>, ins: seq<CoreIn>)
    requires IsRun(ys, ins) && AlignedInputs(ins)
    requires AfterReset(ys[0].c) && !ys[0].rsp.valid
    ensures AllAligned(Reqs(Trace(ys, ins)))
    ensures Ok(ys[|ins|])
    ensures FlatLoads(Bytes(ys[0].main), Reqs(Trace(ys, ins)))
         == Rsps(Trace(ys, ins)) + ToSeq(Outstanding(ys[|ins|]))
    ensures Abs(ys[|ins|]) == FlatAfter(Bytes(ys[0].main), Reqs(Trace(ys, ins)))
  {
    hide Step, Low, High, Join, Pow2, BusAddr;
    var y := ys[0];
    ResetEstablishes(y);
    forall a | 0 <= a < MEM_BYTES
      ensures ByteOf(y, a) == Bytes(y.main)[a]
    {
    }
    assert Base(y) == Bytes(y.main);
    RunAllOk(ys, ins);
    RunRefines(ys, ins);
    SpecRunLoads(SpecsOf(ys), Trace(ys, ins));
  }

  /** In every state reachable from reset: no two valid ways of a set share a tag, dirty lines are valid,
      and a clean valid line that is not being refilled equals main memory. */
  lemma ReachableLines(ys: seq<System>, ins: seq<CoreIn>, n: nat)
    requires IsRun(ys, ins) && AlignedInputs(ins) && n < |ys|
    requires AfterReset(ys[0].c) && !ys[0].rsp.valid
    ensures WellFormed(ys[n].c) && TagsInRange(ys[n].c)
    ensures NoDuplicates(ys[n].c) && DirtyIsValid(ys[n].c) && CleanIsMemory(ys[n])
  {
    hide Step, Low, High, Join, Pow2, BusAddr, AfterReset, NoDuplicates, DirtyIsValid, CleanIsMemory;
    ResetEstablishes(ys[0]);
    ResetOk(ys[0]);
    RunOk(ys, ins, n);
  }

  lemma ResetOk(y: System)
    requires AfterReset(y.c) && Inv(y)
    ensures Ok(y)
  {
    hide Inv, Low, High, Join, Pow2;
  }
}
