/** Instruction cache as the fetch stage sees it: when it is ready, that every fetch is accepted and
    answered in bounded time, what stays cached, and which way a miss replaces. */
module ICacheService {
  import opened Options
  import opened BitSlices
  import opened MemTypes
  import opened LruOrder
  import opened DCacheModel
  import DCacheLru
  import opened ICacheModel
  import opened ICacheLru
  import opened ICacheProof

  ghost predicate FromReset(main: MainMemory, ys: seq<Fetcher>, ins: seq<FetchIn>) {
    IsFetchRun(main, ys, ins) && IAfterReset(ys[0].c) && !ys[0].rsp.valid
  }

  // ---------------------------------------------------------------------------------------
  // Ready

  /** A miss accepted in cycle k has not been answered before cycle n. */
  ghost predicate Filling(ys: seq<Fetcher>, ins: seq<FetchIn>, n: nat, k: nat)
    requires k < |ins| && k < |ys| && Formed(ys[k].c)
  {
    k < n <= k + 6 && Accepts(ys[k].c, ins[k]) && !FetchHit(ys[k].c, ins[k])
  }

  lemma ReadyAgain(main: MainMemory, y: Fetcher, i: FetchIn)
    requires IInv(y, main) && (y.c.fsm.IcReset? || (IReady(y.c) && !(Accepts(y.c, i) && !FetchHit(y.c, i))))
    ensures IReady(IStep(main, y, i).c)
  {
    hide Low, High, Join, Pow2, BusAddr, LookupWay, VictimWay, LruTouch, Copies, Distinct, Absent, IBankNext, IDoutNext, IValidNext, ITagNext;
  }

  lemma {:induction false} NotReadyFilling(main: MainMemory, ys: seq<Fetcher>, ins: seq<FetchIn>, n: nat) returns (k: nat)
    requires FromReset(main, ys, ins) && 1 <= n < |ys| && !IReady(ys[n].c)
    ensures k < |ins| && Filling(ys, ins, n, k)
  {
    hide IStep, IInv, IReady, IAfterReset, Accepts, FetchHit, MissPhase, Formed;
    ResetHolds(ys[0], main);
    FetchRunKeeps(main, ys, ins, n - 1);
    var y, i := ys[n - 1], ins[n - 1];
    if n == 1 {
      StartsInReset(y.c);
      ReadyAgain(main, y, i);
    } else if IReady(y.c) {
      if !(Accepts(y.c, i) && !FetchHit(y.c, i)) {
        ReadyAgain(main, y, i);
      }
      k := n - 1;
    } else {
      k := NotReadyFilling(main, ys, ins, n - 1);
      if n - 1 == k + 6 {
        MissTiming(main, ys, ins, k, 7);
      }
    }
  }

  lemma StartsInReset(s: ICache)
    requires IAfterReset(s)
    ensures s.fsm.IcReset?
  {
  }

  /** In every run from reset, from the first cycle on: the cache is ready exactly when no miss was accepted
      in the six cycles before, and then it reads no memory. */
  lemma ReadyExactly(main: MainMemory, ys: seq<Fetcher>, ins: seq<FetchIn>, n: nat)
    requires FromReset(main, ys, ins) && 1 <= n < |ys|
    ensures IReady(ys[n].c) <==> forall k: nat :: k < |ins| ==> !Filling(ys, ins, n, k)
    ensures IReady(ys[n].c) ==> IMemR(ys[n].c).None?
  {
    hide IStep, IInv, IReady, IAfterReset, Accepts, FetchHit, MissPhase, Formed, IMemR;
    ResetHolds(ys[0], main);
    if IReady(ys[n].c) {
      forall k: nat | k < |ins|
        ensures !Filling(ys, ins, n, k)
      {
        if Filling(ys, ins, n, k) {
          MissTiming(main, ys, ins, k, n - k);
        }
      }
      FetchRunKeeps(main, ys, ins, n);
      ReadySilent(main, ys[n]);
    } else {
      var k := NotReadyFilling(main, ys, ins, n);
    }
  }

  lemma ReadySilent(main: MainMemory, y: Fetcher)
    requires IInv(y, main) && IReady(y.c)
    ensures IMemR(y.c).None? && y.c.fsm.IcReady? && !MissedD(y.c)
  {
    hide Copies, Distinct, Absent;
  }

  /** Every accepted fetch is answered with its memory word: in the next cycle after a hit, in the seventh
      after a miss, and then the cache is ready again. */
  lemma FetchAnswered(main: MainMemory, ys: seq<Fetcher>, ins: seq<FetchIn>, n: nat)
    requires IsFetchRun(main, ys, ins) && IInv(ys[0], main) && n + 7 <= |ins| && Accepts(ys[n].c, ins[n])
    ensures var t := if FetchHit(ys[n].c, ins[n]) then 1 else 7;
      IRspValid(ys[n + t].c) && IReady(ys[n + t].c) && RspWord(ys[n + t].c) == Fetched(main, ins[n].addr)
  {
    hide IStep, IInv, IReady, IRspValid, RspWord, Accepts, FetchHit, MissPhase, Formed, Waiting, Fetched;
    FetchRunKeeps(main, ys, ins, n);
    if FetchHit(ys[n].c, ins[n]) {
      HitTiming(main, ys[n], ins[n]);
    } else {
      MissTiming(main, ys, ins, n, 7);
      FetchRunKeeps(main, ys, ins, n + 7);
      Handshake(main, ys[n + 7], ins[n]);
      WaitsForMiss(ys[n + 7], ins[n].addr);
    }
  }

  lemma WaitsForMiss(y: Fetcher, a: WordAddr)
    requires MissPhase(y, a, 7)
    ensures Waiting(y.c) == [a]
  {
  }

  /** A fetch that is held valid is accepted within seven cycles and answered seven cycles later at the
      latest. */
  lemma FetchServed(main: MainMemory, ys: seq<Fetcher>, ins: seq<FetchIn>, n: nat) returns (j: nat, t: nat)
    requires FromReset(main, ys, ins) && 1 <= n && n + 13 <= |ins|
    requires forall k :: n <= k <= n + 6 ==> ins[k].valid
    ensures n <= j <= n + 6 && Accepts(ys[j].c, ins[j]) && (t == 1 || t == 7)
    ensures IRspValid(ys[j + t].c) && RspWord(ys[j + t].c) == Fetched(main, ins[j].addr)
  {
    hide IStep, IInv, IReady, IAfterReset, FetchHit, MissPhase, Formed, IRspValid, RspWord, Fetched;
    ResetHolds(ys[0], main);
    if IReady(ys[n].c) {
      j := n;
    } else {
      var k := NotReadyFilling(main, ys, ins, n);
      j := k + 7;
      MissTiming(main, ys, ins, k, 7);
    }
    FetchAnswered(main, ys, ins, j);
    t := if FetchHit(ys[j].c, ins[j]) then 1 else 7;
  }

  // ---------------------------------------------------------------------------------------
  // What is cached

  /** When a miss is answered, its whole line is cached. */
  lemma MissFills(main: MainMemory, ys: seq<Fetcher>, ins: seq<FetchIn>, n: nat, b: WordAddr)
    requires IsFetchRun(main, ys, ins) && IInv(ys[0], main) && n + 7 <= |ins|
    requires Accepts(ys[n].c, ins[n]) && !FetchHit(ys[n].c, ins[n]) && FetchLine(b) == FetchLine(ins[n].addr)
    ensures Cached(ys[n + 7].c, b)
  {
    hide IStep, IInv, MissPhase, Formed, Accepts, FetchHit, Cached;
    MissTiming(main, ys, ins, n, 6);
    FetchRunKeeps(main, ys, ins, n + 6);
    FilledCached(main, ys[n + 6], ins[n + 6], ins[n].addr, b);
  }

  lemma FilledCached(main: MainMemory, y: Fetcher, i: FetchIn, a: WordAddr, b: WordAddr)
    requires IInv(y, main) && MissPhase(y, a, 6) && FetchLine(b) == FetchLine(a)
    ensures Cached(IStep(main, y, i).c, b)
  {
    hide Low, High, Join, Pow2, BusAddr, LookupWay, VictimWay, LruTouch, Copies, Distinct, IBankNext, IDoutNext, Cached;
    var s' := IStep(main, y, i).c;
    assert TagHit(s'.valid, s'.tag, y.c.pend.way, FetchSet(b, s'.geo), FetchTag(b, s'.geo));
    MissIsAbsent(s', b);
  }

  /** A cycle that accepts no miss, with the cache ready, drops nothing. */
  lemma CachedStep(main: MainMemory, y: Fetcher, i: FetchIn, a: WordAddr)
    requires IInv(y, main) && IReady(y.c) && Cached(y.c, a)
    ensures Cached(IStep(main, y, i).c, a)
  {
    ReadySilent(main, y);
    hide Low, High, Join, Pow2, BusAddr, LookupWay, VictimWay, LruTouch, Copies, Distinct, IBankNext, IDoutNext, Cached;
    var s, s' := y.c, IStep(main, y, i).c;
    MissIsAbsent(s, a);
    MissIsAbsent(s', a);
    assert s'.valid == s.valid && s'.tag == s.tag;
  }

  /** While no miss is accepted, whatever is cached stays cached, so fetches from it keep hitting. */
  lemma {:induction false} StaysCached(main: MainMemory, ys: seq<Fetcher>, ins: seq<FetchIn>, n: nat, m: nat, a: WordAddr)
    requires IsFetchRun(main, ys, ins) && IInv(ys[0], main) && n <= m < |ys| && IReady(ys[n].c) && Cached(ys[n].c, a)
    requires forall k :: n <= k < m ==> !(Accepts(ys[k].c, ins[k]) && !FetchHit(ys[k].c, ins[k]))
    ensures IReady(ys[m].c) && Cached(ys[m].c, a)
    decreases m
  {
    hide IStep, IInv, IReady, Formed, Accepts, FetchHit, Cached;
    if m > n {
      StaysCached(main, ys, ins, n, m - 1, a);
      FetchRunKeeps(main, ys, ins, m - 1);
      ReadyAgain(main, ys[m - 1], ins[m - 1]);
      CachedStep(main, ys[m - 1], ins[m - 1], a);
    }
  }

  // ---------------------------------------------------------------------------------------
  // Which way a miss replaces

  /** The cache's own states and responses along a fetch run. */
  ghost function CachesOf(ys: seq<Fetcher>): (cs: seq<ICache>)
    ensures |cs| == |ys|
  {
    seq(|ys|, k requires 0 <= k < |ys| => ys[k].c)
  }

  ghost function RspsOf(ys: seq<Fetcher>, n: nat): (rs: seq<MemRsp>)
    requires n <= |ys|
    ensures |rs| == n
  {
    seq(n, k requires 0 <= k < n => ys[k].rsp)
  }

  ghost predicate SameGeo(ys: seq<Fetcher>)
    requires ys != []
  {
    forall k :: 0 <= k < |ys| ==> ys[k].c.geo == ys[0].c.geo
  }

  lemma {:induction false} GeometryKept(main: MainMemory, ys: seq<Fetcher>, ins: seq<FetchIn>, n: nat)
    requires IsFetchRun(main, ys, ins) && n < |ys|
    ensures ys[n].c.geo == ys[0].c.geo
  {
    hide INext, Formed;
    if n > 0 {
      GeometryKept(main, ys, ins, n - 1);
    }
  }

  lemma GeometryFixed(main: MainMemory, ys: seq<Fetcher>, ins: seq<FetchIn>)
    requires IsFetchRun(main, ys, ins)
    ensures SameGeo(ys)
  {
    hide IStep, Formed;
    forall k | 0 <= k < |ys|
      ensures ys[k].c.geo == ys[0].c.geo
    {
      GeometryKept(main, ys, ins, k);
    }
  }

  /** The recency list of a set after the accesses registered in the first n cycles. */
  ghost function Recency(ys: seq<Fetcher>, ins: seq<FetchIn>, x: nat, n: nat): seq<nat>
    requires |ys| == |ins| + 1 && n <= |ins| && forall k :: 0 <= k < |ys| ==> Formed(ys[k].c)
  {
    OrderAfter(DCacheLru.ResetOrder(ys[0].c.geo.ways), Registered(CachesOf(ys), ins, x, n))
  }

  /** The way a lookup without a match leaves as victim is the last of the recency list of the accesses up
      to one cycle earlier. */
  lemma VictimLags(main: MainMemory, ys: seq<Fetcher>, ins: seq<FetchIn>, n: nat, a: WordAddr)
    requires FromReset(main, ys, ins) && 1 <= n <= |ins| && !Cached(ys[n].c, a)
    ensures var r := Recency(ys, ins, FetchSet(a, ys[0].c.geo), n - 1);
      |r| == ys[0].c.geo.ways && VictimOf(ys[n].c, a) == r[|r| - 1]
  {
    hide INext, Formed, IAfterReset, OrderAfter, VictimWay, LookupWay, Cached, TouchedNow;
    GeometryFixed(main, ys, ins);
    var g, s := ys[0].c.geo, ys[n].c;
    var x := FetchSet(a, g);
    FormedGeometry(s);
    RunIsSequence(main, ys, ins);
    RanksRunLate(CachesOf(ys), ins, RspsOf(ys, |ins|), g, x, n - 1);
    MissIsAbsent(s, a);
    DCacheLru.RankMaxIsLast(g, s.valid, s.tag, s.lru, x, FetchTag(a, g), Recency(ys, ins, x, n - 1));
  }

  lemma FormedGeometry(s: ICache)
    requires Formed(s)
    ensures ValidGeometry(s.geo) && Shape(s.valid, s.geo.ways, s.geo.Sets()) && Shape(s.tag, s.geo.ways, s.geo.Sets())
    ensures Shape(s.lru, s.geo.ways, s.geo.Sets())
  {
  }

  lemma RunIsSequence(main: MainMemory, ys: seq<Fetcher>, ins: seq<FetchIn>)
    requires IsFetchRun(main, ys, ins) && SameGeo(ys)
    ensures Sequence(CachesOf(ys), ins, RspsOf(ys, |ins|), ys[0].c.geo)
  {
    hide INext, Formed;
  }

  /** The line of a miss goes into that way: two cycles after acceptance the pending request names it. */
  lemma ReplacedWay(main: MainMemory, ys: seq<Fetcher>, ins: seq<FetchIn>, n: nat)
    requires FromReset(main, ys, ins) && 1 <= n && n + 2 <= |ins|
    requires Accepts(ys[n].c, ins[n]) && !FetchHit(ys[n].c, ins[n])
    ensures var r := Recency(ys, ins, FetchSet(ins[n].addr, ys[0].c.geo), n - 1);
      |r| == ys[0].c.geo.ways && ys[n + 2].c.pend.active && ys[n + 2].c.pend.way == r[|r| - 1]
  {
    hide IStep, IInv, Formed, Recency, VictimOf, MissPhase, IAfterReset, Cached;
    ResetHolds(ys[0], main);
    VictimLags(main, ys, ins, n, ins[n].addr);
    MissTiming(main, ys, ins, n, 1);
    VictimSaved(main, ys[n], ins[n], ys[n + 1], ins[n + 1], ins[n].addr);
  }

  lemma VictimSaved(main: MainMemory, y: Fetcher, i: FetchIn, y1: Fetcher, j: FetchIn, a: WordAddr)
    requires Formed(y.c) && y1 == IStep(main, y, i) && i.addr == a && MissPhase(y1, a, 1)
    ensures var p := IStep(main, y1, j).c.pend; p.active && p.way == VictimOf(y.c, a)
  {
    hide Low, High, Join, Pow2, BusAddr, LookupWay, VictimWay, LruTouch, IBankNext, IDoutNext, IValidNext, ITagNext;
  }

  // ---------------------------------------------------------------------------------------
  // Which accesses the recency list sees

  /** The last cycle of a miss accepted in cycle k. */
  ghost predicate Completes(ys: seq<Fetcher>, ins: seq<FetchIn>, n: nat, k: nat)
    requires k < |ins| && k < |ys| && Formed(ys[k].c)
  {
    n == k + 6 && Accepts(ys[k].c, ins[k]) && !FetchHit(ys[k].c, ins[k])
  }

  /** A filled way is registered exactly in the sixth cycle after its miss was accepted, for the set of that
      fetch; in every other cycle it is the way a fetch hits, if one does. */
  lemma AccessesExactly(main: MainMemory, ys: seq<Fetcher>, ins: seq<FetchIn>, n: nat, x: nat)
    requires FromReset(main, ys, ins) && 1 <= n < |ins|
    ensures var s, i := ys[n].c, ins[n];
      && (s.doneD && s.pend.active <==> exists k: nat :: k < |ins| && Completes(ys, ins, n, k))
      && (forall k: nat :: k < |ins| && Completes(ys, ins, n, k) ==>
            TouchedNow(s, i, x) == if FetchSet(ins[k].addr, s.geo) == x then [s.pend.way] else [])
      && ((forall k: nat :: k < |ins| ==> !Completes(ys, ins, n, k)) ==>
            TouchedNow(s, i, x) == if FetchHit(s, i) && FetchSet(i.addr, s.geo) == x then [WayOf(s, i.addr)] else [])
  {
    hide IStep, IInv, IReady, IAfterReset, Accepts, FetchHit, MissPhase, Formed, FetchSet, WayOf;
    ResetHolds(ys[0], main);
    FetchRunKeeps(main, ys, ins, n);
    forall k: nat | k < |ins| && Completes(ys, ins, n, k)
      ensures ys[n].c.doneD && ys[n].c.pend.active && ys[n].c.pend.addr == ins[k].addr
    {
      MissTiming(main, ys, ins, k, 6);
      LastPhase(ys[n], ins[k].addr);
    }
    if ys[n].c.doneD {
      DoneUnready(main, ys[n]);
      var k := NotReadyFilling(main, ys, ins, n);
      MissTiming(main, ys, ins, k, n - k);
      OnlyLastDone(main, ys[n], ins[k].addr, n - k);
      assert Completes(ys, ins, n, k);
    }
  }

  lemma LastPhase(y: Fetcher, a: WordAddr)
    requires MissPhase(y, a, 6)
    ensures y.c.doneD && y.c.pend.active && y.c.pend.addr == a
  {
  }

  lemma DoneUnready(main: MainMemory, y: Fetcher)
    requires IInv(y, main) && y.c.doneD
    ensures !IReady(y.c)
  {
    hide Copies, Distinct, Absent;
  }

  lemma OnlyLastDone(main: MainMemory, y: Fetcher, a: WordAddr, t: nat)
    requires IInv(y, main) && 1 <= t <= 6 && MissPhase(y, a, t) && y.c.doneD
    ensures t == 6
  {
    hide Copies, Distinct, Absent;
  }
}
