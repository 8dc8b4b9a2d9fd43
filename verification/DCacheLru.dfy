/** Data cache: replacement is true least-recently-used in every set. */
module DCacheLru {
  import opened BitSlices
  import opened MemTypes
  import opened LruOrder
  import opened DCacheModel
  import opened DCacheInvariant
  import opened DCacheRefinement

  /** The rank counters of one set. */
  function Column(lru: Table<nat>, ways: nat, sets: nat, x: nat): (c: seq<nat>)
    requires Shape(lru, ways, sets) && x < sets
    ensures |c| == ways && forall w :: 0 <= w < ways ==> c[w] == lru[w][x]
  {
    seq(ways, w requires 0 <= w < ways => lru[w][x])
  }

  function ColumnOf(s: Cache, x: nat): (c: seq<nat>)
    requires WellFormed(s) && x < s.geo.Sets()
    ensures |c| == s.geo.ways
  {
    Column(s.lru, s.geo.ways, s.geo.Sets(), x)
  }

  /** The way of set x, if any, whose access completes in this cycle: a hit as it is accepted, a
      miss as it is performed on the refilled line. */
  function Touched(s: Cache, i: CoreIn, x: nat): (t: seq<nat>)
    requires WellFormed(s) && x < s.geo.Sets()
    ensures |t| <= 1 && forall k :: 0 <= k < |t| ==> t[k] < s.geo.ways
  {
    if Hit(s, i) && SetIdx(i.req.addr, s.geo) == x then [CrWay(s, i.req)]
    else if ReqPending(s) && SetIdx(s.pend.req.addr, s.geo) == x then [s.pend.way]
    else []
  }

  /** The two sources of a recency update are never active in the same cycle. */
  lemma UpdatesExclusive(y: System, i: CoreIn)
    requires Ok(y)
    ensures !(Hit(y.c, i) && ReqPending(y.c))
  {
  }

  lemma ColumnStep(y: System, i: CoreIn, x: nat)
    requires Ok(y) && x < y.c.geo.Sets()
    ensures var t, old_, new_ := Touched(y.c, i, x), ColumnOf(y.c, x), Column(LruNext(y.c, i), y.c.geo.ways, y.c.geo.Sets(), x);
      if t == [] then new_ == old_
      else forall v :: 0 <= v < |old_| ==>
        new_[v] == if |old_| == 2 then (if v == t[0] then 0 else 1)
                   else if v == t[0] then 0 else if old_[v] < old_[t[0]] then old_[v] + 1 else old_[v]
  {
    hide Low, High, Join, Pow2, BusAddr;
    UpdatesExclusive(y, i);
  }

  /** One clock edge moves the completed access to the front of its set's recency list and leaves
      the other sets alone. */
  lemma LruStep(y: System, i: CoreIn, x: nat, order: seq<nat>)
    requires Ok(y) && x < y.c.geo.Sets() && Ranks(ColumnOf(y.c, x), order)
    ensures Ranks(Column(LruNext(y.c, i), y.c.geo.ways, y.c.geo.Sets(), x), OrderAfter(order, Touched(y.c, i, x)))
  {
    hide Low, High, Join, Pow2, BusAddr;
    var t := Touched(y.c, i, x);
    ColumnStep(y, i, x);
    if t != [] {
      TouchIsMoveToFront(ColumnOf(y.c, x), Column(LruNext(y.c, i), y.c.geo.ways, y.c.geo.Sets(), x), order, t[0]);
      assert t[..0] == [];
    }
  }

  /** All completed accesses to set x over the first n cycles of a run. */
  ghost function Touches(ys: seq<System>, ins: seq<CoreIn>, x: nat, n: nat): seq<nat>
    requires IsRun(ys, ins) && n <= |ins| && forall k :: 0 <= k < n ==> x < ys[k].c.geo.Sets()
  {
    if n == 0 then [] else Touches(ys, ins, x, n - 1) + Touched(ys[n - 1].c, ins[n - 1], x)
  }

  lemma {:induction false} OrderAfterConcat(order: seq<nat>, a: seq<nat>, b: seq<nat>)
    requires |b| <= 1
    ensures OrderAfter(order, a + b) == OrderAfter(OrderAfter(order, a), b)
  {
    if b == [] {
      assert a + b == a;
    } else {
      assert (a + b)[..|a|] == a;
      assert b[..0] == [];
    }
  }

  lemma {:induction false} GeometryFixed(ys: seq<System>, ins: seq<CoreIn>, k: nat)
    requires IsRun(ys, ins) && k < |ys|
    ensures ys[k].c.geo == ys[0].c.geo
  {
    if k > 0 {
      GeometryFixed(ys, ins, k - 1);
    }
  }

  lemma LruRunStep(y: System, i: CoreIn, y': System, x: nat, order: seq<nat>)
    requires Ok(y) && y' == Step(y, i) && x < y.c.geo.Sets() && Ranks(ColumnOf(y.c, x), order)
    ensures y'.c.geo == y.c.geo && Ranks(ColumnOf(y'.c, x), OrderAfter(order, Touched(y.c, i, x)))
  {
    hide Low, High, Join, Pow2, BusAddr;
    LruStep(y, i, x, order);
    assert y'.c.lru == LruNext(y.c, i);
  }

  ghost predicate SameGeometry(ys: seq<System>, g: Geometry) {
    forall k :: 0 <= k < |ys| ==> ys[k].c.geo == g
  }

  /** The geometry never changes, so every run satisfies this. */
  lemma RunGeometry(ys: seq<System>, ins: seq<CoreIn>)
    requires IsRun(ys, ins)
    ensures SameGeometry(ys, ys[0].c.geo)
  {
    forall k | 0 <= k < |ys|
      ensures ys[k].c.geo == ys[0].c.geo
    {
      GeometryFixed(ys, ins, k);
    }
  }

  /** After any run, in every set, the rank counters are the positions in the list obtained by
      moving every completed access to the front. */
  lemma {:induction false} LruRun(ys: seq<System>, ins: seq<CoreIn>, g: Geometry, x: nat, order: seq<nat>, n: nat)
    requires IsRun(ys, ins) && AllOk(ys) && SameGeometry(ys, g) && n <= |ins| && x < g.Sets()
    requires Ranks(ColumnOf(ys[0].c, x), order)
    ensures Ranks(ColumnOf(ys[n].c, x), OrderAfter(order, Touches(ys, ins, x, n)))
  {
    hide Step, Ranks, ColumnOf, Touched, Low, High, Join, Pow2, BusAddr;
    if n > 0 {
      LruRun(ys, ins, g, x, order, n - 1);
      var before, t := Touches(ys, ins, x, n - 1), Touched(ys[n - 1].c, ins[n - 1], x);
      LruRunStep(ys[n - 1], ins[n - 1], ys[n], x, OrderAfter(order, before));
      OrderAfterConcat(order, before, t);
    }
  }

  lemma {:induction false} TouchesInRange(ys: seq<System>, ins: seq<CoreIn>, g: Geometry, x: nat, n: nat)
    requires IsRun(ys, ins) && SameGeometry(ys, g) && n <= |ins| && x < g.Sets()
    ensures forall k :: 0 <= k < |Touches(ys, ins, x, n)| ==> Touches(ys, ins, x, n)[k] < g.ways
  {
    hide Step, Low, High, Join, Pow2, BusAddr;
    if n > 0 {
      TouchesInRange(ys, ins, g, x, n - 1);
    }
  }

  /** The recency list a reset starts from: way 0 first. */
  function ResetOrder(ways: nat): (o: seq<nat>)
    ensures IsOrder(o, ways)
  {
    seq(ways, w => w)
  }

  lemma {:induction false} VictimIsRankMax(g: Geometry, valid: Table<bool>, tags: Table<nat>, lru: Table<nat>, x: nat, tag: nat, n: nat, w: nat)
    requires ValidGeometry(g) && Shape(valid, g.ways, g.Sets()) && Shape(tags, g.ways, g.Sets()) && Shape(lru, g.ways, g.Sets())
    requires x < g.Sets() && w < n <= g.ways
    requires forall v: nat :: v < g.ways ==> !TagHit(valid, tags, v, x, tag)
    requires lru[w][x] == g.ways - 1
    requires forall v :: 0 <= v < g.ways && v != w ==> lru[v][x] != g.ways - 1
    ensures VictimWay(g, valid, tags, lru, x, tag, n) == w
  {
    assert !TagHit(valid, tags, n - 1, x, tag);
    if w < n - 1 {
      VictimIsRankMax(g, valid, tags, lru, x, tag, n - 1, w);
    }
  }

  /** The way of rank WAYS - 1, the last of the recency list, is the one a lookup without a match leaves. */
  lemma RankMaxIsLast(g: Geometry, valid: Table<bool>, tags: Table<nat>, lru: Table<nat>, x: nat, tag: nat, order: seq<nat>)
    requires ValidGeometry(g) && Shape(valid, g.ways, g.Sets()) && Shape(tags, g.ways, g.Sets()) && Shape(lru, g.ways, g.Sets())
    requires x < g.Sets() && forall v: nat :: v < g.ways ==> !TagHit(valid, tags, v, x, tag)
    requires Ranks(Column(lru, g.ways, g.Sets(), x), order)
    ensures VictimWay(g, valid, tags, lru, x, tag, g.ways) == order[g.ways - 1]
  {
    var ways, c := g.ways, Column(lru, g.ways, g.Sets(), x);
    var last := order[ways - 1];
    forall u | 0 <= u < ways && u != last
      ensures lru[u][x] != ways - 1
    {
      AllOccur(order, ways, u);
      var k :| 0 <= k < ways && order[k] == u;
      assert c[order[k]] == k;
    }
    assert c[last] == ways - 1;
    VictimIsRankMax(g, valid, tags, lru, x, tag, ways, last);
  }

  lemma VictimIsLast(s: Cache, r: Req, order: seq<nat>)
    requires WellFormed(s) && !ReqHits(s, r)
    requires Ranks(ColumnOf(s, SetIdx(r.addr, s.geo)), order)
    ensures CrVictim(s, r) == order[s.geo.ways - 1]
  {
    HitIffTagMatch(s, r);
    RankMaxIsLast(s.geo, s.valid, s.tag, s.lru, SetIdx(r.addr, s.geo), TagOf(r.addr, s.geo), order);
  }

  lemma VictimAt(s: Cache, r: Req, touches: seq<nat>, v: nat)
    requires WellFormed(s) && !ReqHits(s, r) && v < s.geo.ways
    requires forall k :: 0 <= k < |touches| ==> touches[k] < s.geo.ways
    requires Ranks(ColumnOf(s, SetIdx(r.addr, s.geo)), OrderAfter(ResetOrder(s.geo.ways), touches))
    ensures LastTouch(touches, CrVictim(s, r)) <= LastTouch(touches, v)
  {
    hide OrderAfter, LastTouch, VictimWay, Low, High, Join, Pow2, BusAddr;
    var o := OrderAfter(ResetOrder(s.geo.ways), touches);
    VictimIsLast(s, r, o);
    OrderIsRecency(ResetOrder(s.geo.ways), touches, s.geo.ways);
    AllOccur(o, s.geo.ways, v);
    LastIsLeastRecent(o, touches, v);
  }

  lemma ResetRanks(y: System, x: nat)
    requires AfterReset(y.c) && !y.rsp.valid && x < y.c.geo.Sets()
    ensures Ok(y) && Ranks(ColumnOf(y.c, x), ResetOrder(y.c.geo.ways))
  {
    ResetEstablishes(y);
  }

  /** From reset, after any run: no way of the missed set was touched longer ago than the victim. */
  lemma VictimIsLeastRecent(ys: seq<System>, ins: seq<CoreIn>, n: nat, v: nat)
    requires IsRun(ys, ins) && AlignedInputs(ins) && n < |ins|
    requires AfterReset(ys[0].c) && !ys[0].rsp.valid
    requires SameGeometry(ys, ys[0].c.geo)
    requires Miss(ys[n].c, ins[n]) && v < ys[0].c.geo.ways
    ensures var x := SetIdx(ins[n].req.addr, ys[0].c.geo);
      LastTouch(Touches(ys, ins, x, n), CrVictim(ys[n].c, ins[n].req)) <= LastTouch(Touches(ys, ins, x, n), v)
  {
    hide Step, OrderAfter, LastTouch, Touches, VictimWay, Ranks, AfterReset, Low, High, Join, Pow2, BusAddr;
    var r, g := ins[n].req, ys[0].c.geo;
    var x := SetIdx(r.addr, g);
    ResetRanks(ys[0], x);
    RunAllOk(ys, ins);
    LruRun(ys, ins, g, x, ResetOrder(g.ways), n);
    TouchesInRange(ys, ins, g, x, n);
    VictimAt(ys[n].c, r, Touches(ys, ins, x, n), v);
  }
}
