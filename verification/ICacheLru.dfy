/** Instruction cache: the rank counters are a recency list that runs one cycle behind. */
module ICacheLru {
  import opened BitSlices
  import opened MemTypes
  import opened LruOrder
  import opened DCacheModel
  import DCacheLru
  import opened ICacheModel

  /** The way of set x whose access is registered in this cycle: the filled one in the last cycle of a miss,
      else the one a fetch hits. */
  function TouchedNow(s: ICache, i: FetchIn, x: nat): (t: seq<nat>)
    requires Formed(s)
    ensures |t| <= 1 && forall k :: 0 <= k < |t| ==> t[k] < s.geo.ways
  {
    if s.doneD && s.pend.active then (if FetchSet(s.pend.addr, s.geo) == x then [s.pend.way] else [])
    else if FetchHit(s, i) && FetchSet(i.addr, s.geo) == x then [WayOf(s, i.addr)]
    else []
  }

  /** The registered access waiting to be applied. */
  function TouchedLate(s: ICache, x: nat): (t: seq<nat>)
    requires Formed(s)
    ensures |t| <= 1 && forall k :: 0 <= k < |t| ==> t[k] < s.geo.ways
  {
    if s.updateLruD && s.lcaD.set_ == x then [s.lcaD.way] else []
  }

  function Ranking(s: ICache, x: nat): (c: seq<nat>)
    requires Formed(s) && x < s.geo.Sets()
  {
    DCacheLru.Column(s.lru, s.geo.ways, s.geo.Sets(), x)
  }

  /** One edge applies the registered access to its set and registers the current one. */
  lemma LateStep(s: ICache, i: FetchIn, rsp: MemRsp, x: nat, order: seq<nat>)
    requires Formed(s) && x < s.geo.Sets() && Ranks(Ranking(s, x), order)
    ensures var s' := INext(s, i, rsp);
      && Ranks(Ranking(s', x), OrderAfter(order, TouchedLate(s, x)))
      && TouchedLate(s', x) == TouchedNow(s, i, x)
  {
    hide Low, High, Join, Pow2, BusAddr, LookupWay, VictimWay, IBankNext, IDoutNext, IValidNext, ITagNext, Ranks;
    var s' := INext(s, i, rsp);
    var t := TouchedLate(s, x);
    if t != [] {
      TouchIsMoveToFront(Ranking(s, x), Ranking(s', x), order, t[0]);
      assert t[..0] == [];
    } else {
      assert Ranking(s', x) == Ranking(s, x);
    }
  }

  ghost predicate Sequence(cs: seq<ICache>, ins: seq<FetchIn>, rsps: seq<MemRsp>, g: Geometry) {
    && |cs| == |ins| + 1 && |rsps| == |ins|
    && (forall k :: 0 <= k < |cs| ==> Formed(cs[k]) && cs[k].geo == g)
    && forall k :: 0 <= k < |ins| ==> cs[k + 1] == INext(cs[k], ins[k], rsps[k])
  }

  /** Accesses to set x registered in the first n cycles. */
  ghost function Registered(cs: seq<ICache>, ins: seq<FetchIn>, x: nat, n: nat): seq<nat>
    requires n <= |ins| && n < |cs| && forall k :: 0 <= k < |cs| ==> Formed(cs[k])
  {
    if n == 0 then [] else Registered(cs, ins, x, n - 1) + TouchedNow(cs[n - 1], ins[n - 1], x)
  }

  /** In every run and every set the rank counters stay a permutation, and after n + 1 cycles they are
      the positions in the move-to-front list of the accesses of the first n: one cycle late. */
  lemma {:induction false} RanksRunLate(cs: seq<ICache>, ins: seq<FetchIn>, rsps: seq<MemRsp>, g: Geometry, x: nat, n: nat)
    requires Sequence(cs, ins, rsps, g) && n < |ins| && IAfterReset(cs[0]) && x < g.Sets()
    ensures Ranks(Ranking(cs[n + 1], x), OrderAfter(DCacheLru.ResetOrder(g.ways), Registered(cs, ins, x, n)))
    ensures TouchedLate(cs[n + 1], x) == TouchedNow(cs[n], ins[n], x)
  {
    hide INext, Ranks, Ranking, TouchedLate, TouchedNow, Formed, OrderAfter;
    var o := DCacheLru.ResetOrder(g.ways);
    if n == 0 {
      ResetRanking(cs[0], x);
      LateStep(cs[0], ins[0], rsps[0], x, o);
      NoTouches(o);
    } else {
      RanksRunLate(cs, ins, rsps, g, x, n - 1);
      var before := Registered(cs, ins, x, n - 1);
      LateStep(cs[n], ins[n], rsps[n], x, OrderAfter(o, before));
      DCacheLru.OrderAfterConcat(o, before, TouchedNow(cs[n - 1], ins[n - 1], x));
    }
  }

  lemma NoTouches(o: seq<nat>)
    ensures OrderAfter(o, []) == o
  {
  }

  lemma ResetRanking(s: ICache, x: nat)
    requires IAfterReset(s) && x < s.geo.Sets()
    ensures Ranks(Ranking(s, x), DCacheLru.ResetOrder(s.geo.ways)) && TouchedLate(s, x) == []
  {
    hide Low, High, Join, Pow2;
  }
}
