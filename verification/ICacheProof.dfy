/** Instruction cache: with memory unmodified, every response is the word at the accepted address;
    requests are answered once, in order, hits in the next cycle and misses in the seventh. */
module ICacheProof {
  import opened Options
  import opened BitSlices
  import opened MemTypes
  import opened DCacheModel
  import opened ICacheModel
  import opened DCacheInvariant

  function FillSet(s: ICache): (x: nat)
    requires Formed(s)
    ensures x < s.geo.Sets()
  {
    FetchSet(s.pend.addr, s.geo)
  }

  /** The line being overwritten, whose valid bit may still be set with the old tag. */
  ghost predicate Overwritten(s: ICache, w: nat, x: nat)
    requires Formed(s)
  {
    s.fsm.IcMiss? && !s.doneD && w == s.pend.way && x == FillSet(s)
  }

  ghost predicate LineRight(s: ICache, main: MainMemory, w: nat, x: nat)
    requires Formed(s) && w < s.geo.ways && x < s.geo.Sets()
  {
    && Join(s.tag[w][x], x, s.geo.idxBits) < MEM_LINES
    && BeatsMatch(s.bank[w], x, main, Join(s.tag[w][x], x, s.geo.idxBits), 4)
  }

  /** Valid lines are copies of memory. */
  ghost predicate Copies(s: ICache, main: MainMemory) requires Formed(s) {
    forall w, x :: 0 <= w < s.geo.ways && 0 <= x < s.geo.Sets() && s.valid[w][x] && !Overwritten(s, w, x) ==>
      LineRight(s, main, w, x)
  }

  /** Two valid ways of a set never share a tag. */
  ghost predicate Distinct(s: ICache) requires Formed(s) {
    forall v, w, x :: 0 <= v < w < s.geo.ways && 0 <= x < s.geo.Sets() && s.valid[v][x] && s.valid[w][x] ==>
      s.tag[v][x] != s.tag[w][x]
  }

  ghost predicate Absent(s: ICache, a: WordAddr) requires Formed(s) {
    forall w: nat :: w < s.geo.ways ==> !TagHit(s.valid, s.tag, w, FetchSet(a, s.geo), FetchTag(a, s.geo))
  }

  ghost predicate ServedRight(s: ICache, main: MainMemory, a: WordAddr) requires Formed(s) {
    s.wordD == a % 4 && s.dout[s.wayD] == main[a / 4]
  }

  ghost predicate Quiet(y: Fetcher) {
    y.c.memCnt == y.c.memCntD == 0 && !y.c.doneD && !y.rsp.valid
  }

  ghost predicate ReadyOk(y: Fetcher, main: MainMemory) requires Formed(y.c) {
    var s := y.c;
    && Quiet(y)
    && (s.fsm.IcReset? ==> !s.newReqD && !s.pend.active)
    && (s.pend.active ==> !s.newReqD && ServedRight(s, main, s.pend.addr))
    && (s.newReqD && s.hitD ==> ServedRight(s, main, s.crD))
  }

  ghost predicate StartOk(y: Fetcher) requires Formed(y.c) {
    Quiet(y) && !y.c.pend.active && Absent(y.c, y.c.crD)
  }

  ghost predicate FillOk(y: Fetcher, main: MainMemory) requires Formed(y.c) {
    var s, j := y.c, y.c.memCntD;
    && s.pend.active && !s.newReqD && s.pend.startAddr == BlockStart(s.pend.addr) && Absent(s, s.pend.addr)
    && s.memCnt == (j + 1) % 4
    && y.rsp == MemRsp(true, main[4 * FetchLine(s.pend.addr) + j])
    && BeatsMatch(s.bank[s.pend.way], FillSet(s), main, FetchLine(s.pend.addr), j)
  }

  ghost predicate FilledOk(y: Fetcher) requires Formed(y.c) {
    var s := y.c;
    && s.pend.active && !s.newReqD && s.memCnt == s.memCntD == 0 && !y.rsp.valid
    && TagHit(s.valid, s.tag, s.pend.way, FillSet(s), FetchTag(s.pend.addr, s.geo))
  }

  ghost predicate IInv(y: Fetcher, main: MainMemory) {
    && Formed(y.c) && Copies(y.c, main) && Distinct(y.c)
    && match y.c.fsm
       case IcReset => ReadyOk(y, main)
       case IcReady => if MissedD(y.c) then StartOk(y) else ReadyOk(y, main)
       case IcMiss => if y.c.doneD then FilledOk(y) else FillOk(y, main)
  }

  lemma ResetHolds(y: Fetcher, main: MainMemory)
    requires IAfterReset(y.c) && !y.rsp.valid
    ensures IInv(y, main)
  {
  }

  // ---------------------------------------------------------------------------------------
  // Lookup

  lemma MissIsAbsent(s: ICache, a: WordAddr)
    requires Formed(s)
    ensures Cached(s, a) <==> !Absent(s, a)
  {
    hide Low, High, Pow2;
    LookupFinds(s.geo, s.valid, s.tag, FetchSet(a, s.geo), FetchTag(a, s.geo), s.geo.ways);
  }

  lemma FetchFields(a: WordAddr, g: Geometry)
    ensures Join(FetchTag(a, g), FetchSet(a, g), g.idxBits) == FetchLine(a)
    ensures BlockStart(a) == 4 * FetchLine(a) && a / 4 == 4 * FetchLine(a) + a / 4 % 4
    ensures BlockStart(a) / 4 == FetchLine(a)
  {
    JoinSlices(FetchLine(a), g.idxBits);
  }

  /** A tag match in a line that is not being overwritten: the bank holds the beat of that address. */
  lemma MatchedBeat(s: ICache, main: MainMemory, w: nat, a: WordAddr)
    requires Formed(s) && Copies(s, main) && w < s.geo.ways
    requires TagHit(s.valid, s.tag, w, FetchSet(a, s.geo), FetchTag(a, s.geo))
    requires !Overwritten(s, w, FetchSet(a, s.geo))
    ensures s.bank[w][4 * FetchSet(a, s.geo) + a / 4 % 4] == main[a / 4]
  {
    hide Low, High, Join, Pow2;
    var x := FetchSet(a, s.geo);
    FetchFields(a, s.geo);
    assert LineRight(s, main, w, x);
    assert Beat(s.bank[w], x, a / 4 % 4) == main[4 * FetchLine(a) + a / 4 % 4];
  }

  // ---------------------------------------------------------------------------------------
  // Edges

  /** Fewer valid lines, same tags and banks. */
  lemma LinesKept(s: ICache, s': ICache, main: MainMemory)
    requires Formed(s) && Formed(s') && Copies(s, main) && Distinct(s) && !(s.fsm.IcMiss? && !s.doneD)
    requires s'.geo == s.geo && s'.tag == s.tag && s'.bank == s.bank
    requires forall w, x :: 0 <= w < s.geo.ways && 0 <= x < s.geo.Sets() && s'.valid[w][x] ==> s.valid[w][x]
    ensures Copies(s', main) && Distinct(s')
    ensures forall a: WordAddr :: Absent(s, a) ==> Absent(s', a)
  {
    hide Low, High, Join, Pow2;
    forall w, x | 0 <= w < s.geo.ways && 0 <= x < s.geo.Sets() && s'.valid[w][x]
      ensures LineRight(s', main, w, x)
    {
      assert LineRight(s, main, w, x);
    }
    forall a: WordAddr | Absent(s, a)
      ensures Absent(s', a)
    {
      forall w: nat | w < s'.geo.ways
        ensures !TagHit(s'.valid, s'.tag, w, FetchSet(a, s'.geo), FetchTag(a, s'.geo))
      {
        assert !TagHit(s.valid, s.tag, w, FetchSet(a, s.geo), FetchTag(a, s.geo));
      }
    }
  }

  /** What the edge leaves in the tables outside a refill. */
  lemma QuietTables(y: Fetcher, i: FetchIn, main: MainMemory)
    requires IInv(y, main) && !(y.c.fsm.IcMiss? && !y.c.doneD)
    ensures var s, s' := y.c, IStep(main, y, i).c;
      && s'.tag == s.tag && s'.bank == s.bank
      && (!MissedD(s) ==> s'.valid == s.valid)
      && forall w, x :: 0 <= w < s.geo.ways && 0 <= x < s.geo.Sets() && s'.valid[w][x] ==> s.valid[w][x]
  {
    hide Low, High, Join, Pow2, LookupWay, VictimWay, LruTouch, BusAddr, Copies, Distinct, ServedRight, Absent;
  }

  /** Ready (or leaving reset), nothing outstanding in memory. */
  lemma ReadyEdge(y: Fetcher, i: FetchIn, main: MainMemory)
    requires IInv(y, main) && !y.c.fsm.IcMiss? && !MissedD(y.c)
    ensures IInv(IStep(main, y, i), main)
  {
    hide Low, High, Join, Pow2, BusAddr, LookupWay, VictimWay, LruTouch;
    var s, s' := y.c, IStep(main, y, i).c;
    QuietTables(y, i, main);
    LinesKept(s, s', main);
    MissIsAbsent(s, i.addr);
    hide Copies, Distinct, Absent;
    if FetchHit(s, i) {
      MatchedBeat(s, main, WayOf(s, i.addr), i.addr);
      assert BankCell(s, i, y.rsp) == 4 * FetchSet(i.addr, s.geo) + i.addr / 4 % 4;
      assert s'.dout[s'.wayD] == s.bank[WayOf(s, i.addr)][BankCell(s, i, y.rsp)];
      assert ServedRight(s', main, i.addr);
    }
    assert ReadyOk(IStep(main, y, i), main) || MissedD(s');
    assert MissedD(s') ==> StartOk(IStep(main, y, i));
  }

  /** The cycle after a miss: the request is saved, the first beat requested, one line invalidated. */
  lemma StartEdge(y: Fetcher, i: FetchIn, main: MainMemory)
    requires IInv(y, main) && y.c.fsm.IcReady? && MissedD(y.c)
    ensures IInv(IStep(main, y, i), main)
  {
    hide Low, High, Join, Pow2, BusAddr, LookupWay, VictimWay, LruTouch, Copies, Distinct, Absent;
    var s, s' := y.c, IStep(main, y, i).c;
    FetchFields(s.crD, s.geo);
    QuietTables(y, i, main);
    LinesKept(s, s', main);
  }

  /** The filled line is read for the response. */
  lemma FilledEdge(y: Fetcher, i: FetchIn, main: MainMemory)
    requires IInv(y, main) && y.c.fsm.IcMiss? && y.c.doneD
    ensures IInv(IStep(main, y, i), main)
  {
    hide Low, High, Join, Pow2, BusAddr, LookupWay, VictimWay, LruTouch, Copies, Distinct, Absent;
    var s, s' := y.c, IStep(main, y, i).c;
    QuietTables(y, i, main);
    LinesKept(s, s', main);
    MatchedBeat(s, main, s.pend.way, s.pend.addr);
    assert BankCell(s, i, y.rsp) == 4 * FetchSet(s.pend.addr, s.geo) + s.pend.addr / 4 % 4;
    assert s'.dout[s'.wayD] == s.bank[s.pend.way][BankCell(s, i, y.rsp)];
    assert ServedRight(s', main, s.pend.addr);
    assert ReadyOk(IStep(main, y, i), main);
  }

  /** A refill beat lands in its own cell and nowhere else. */
  lemma FillBanks(y: Fetcher, i: FetchIn, main: MainMemory)
    requires IInv(y, main) && y.c.fsm.IcMiss? && !y.c.doneD
    ensures var s, s' := y.c, IStep(main, y, i).c;
      && BeatsMatch(s'.bank[s.pend.way], FillSet(s), main, FetchLine(s.pend.addr), s.memCntD + 1)
      && forall w, x, k :: 0 <= w < s.geo.ways && 0 <= x < s.geo.Sets() && 0 <= k < 4 && !(w == s.pend.way && x == FillSet(s)) ==>
           Beat(s'.bank[w], x, k) == Beat(s.bank[w], x, k)
  {
    hide Low, High, Join, Pow2, LookupWay, VictimWay, LruTouch, BusAddr, Copies, Distinct, Absent, IValidNext, ITagNext, Put;
    var s, s' := y.c, IStep(main, y, i).c;
    var p, z := s.pend.way, FillSet(s);
    var j: nat := s.memCntD;
    assert BankCell(s, i, y.rsp) == 4 * z + j;
    assert s'.bank == Put(s.bank, p, 4 * z + j, y.rsp.data);
    BeatLands(s.geo, s.bank, p, z, j, y.rsp.data);
    forall k | 0 <= k < j + 1
      ensures Beat(s'.bank[p], z, k) == main[4 * FetchLine(s.pend.addr) + k]
    {
      if k < j {
        assert Beat(s.bank[p], z, k) == main[4 * FetchLine(s.pend.addr) + k];
      }
    }
  }

  lemma FillCopies(y: Fetcher, i: FetchIn, main: MainMemory)
    requires IInv(y, main) && y.c.fsm.IcMiss? && !y.c.doneD
    ensures var s, s' := y.c, IStep(main, y, i).c;
      forall w, x :: 0 <= w < s.geo.ways && 0 <= x < s.geo.Sets() && s.valid[w][x] && !(w == s.pend.way && x == FillSet(s)) ==>
        LineRight(s', main, w, x)
  {
    hide Low, High, Join, Pow2, LookupWay, VictimWay, LruTouch, BusAddr, Distinct, Absent, IBankNext, IValidNext;
    var s, s' := y.c, IStep(main, y, i).c;
    FillBanks(y, i, main);
    forall w, x | 0 <= w < s.geo.ways && 0 <= x < s.geo.Sets() && s.valid[w][x] && !(w == s.pend.way && x == FillSet(s))
      ensures LineRight(s', main, w, x)
    {
      assert LineRight(s, main, w, x);
      assert s'.tag[w][x] == s.tag[w][x];
      forall k | 0 <= k < 4
        ensures Beat(s'.bank[w], x, k) == main[4 * Join(s.tag[w][x], x, s.geo.idxBits) + k]
      {
        assert Beat(s.bank[w], x, k) == main[4 * Join(s.tag[w][x], x, s.geo.idxBits) + k];
      }
    }
  }

  /** A beat arrives and is written; the next one has been requested. */
  lemma MiddleFill(y: Fetcher, i: FetchIn, main: MainMemory)
    requires IInv(y, main) && y.c.fsm.IcMiss? && !y.c.doneD && y.c.memCntD != 3
    ensures IInv(IStep(main, y, i), main)
  {
    hide Low, High, Join, Pow2, LookupWay, VictimWay, LruTouch, LineRight, IBankNext, IDoutNext, FillOk, BusAddr, Absent, TagHit;
    var s, s' := y.c, IStep(main, y, i).c;
    FillCopies(y, i, main);
    MiddleBeat(y, i, main);
  }

  lemma MiddleBeat(y: Fetcher, i: FetchIn, main: MainMemory)
    requires IInv(y, main) && y.c.fsm.IcMiss? && !y.c.doneD && y.c.memCntD != 3
    ensures FillOk(IStep(main, y, i), main)
    ensures var s, s' := y.c, IStep(main, y, i).c;
      s'.valid == s.valid && s'.tag == s.tag && s'.fsm.IcMiss? && !s'.doneD && s'.pend == s.pend
  {
    hide Low, High, Join, Pow2, LookupWay, VictimWay, LruTouch, LineRight, IBankNext, IDoutNext, Copies, Distinct, TagHit, BankCell, WayOf, VictimOf;
    var s, s' := y.c, IStep(main, y, i).c;
    FetchFields(s.pend.addr, s.geo);
    FillBanks(y, i, main);
    assert s'.valid == s.valid && s'.tag == s.tag;
  }

  /** The last beat: the line becomes valid under its new tag. */
  lemma LastFill(y: Fetcher, i: FetchIn, main: MainMemory)
    requires IInv(y, main) && y.c.fsm.IcMiss? && !y.c.doneD && y.c.memCntD == 3
    ensures IInv(IStep(main, y, i), main)
  {
    hide Low, High, Join, Pow2, LookupWay, VictimWay, LruTouch, BusAddr, IBankNext, IDoutNext;
    var s, s' := y.c, IStep(main, y, i).c;
    var p, z := s.pend.way, FillSet(s);
    FetchFields(s.pend.addr, s.geo);
    FillBanks(y, i, main);
    FillCopies(y, i, main);
    assert s'.valid == Put(s.valid, p, z, true);
    assert s'.tag == Put(s.tag, p, z, FetchTag(s.pend.addr, s.geo));
    assert LineRight(s', main, p, z);
    assert FilledOk(IStep(main, y, i));
    LastDistinct(s, s', p, z);
  }

  lemma LastDistinct(s: ICache, s': ICache, p: nat, z: nat)
    requires Formed(s) && Formed(s') && s'.geo == s.geo && p < s.geo.ways && z == FillSet(s) && Distinct(s)
    requires Absent(s, s.pend.addr)
    requires s'.valid == Put(s.valid, p, z, true) && s'.tag == Put(s.tag, p, z, FetchTag(s.pend.addr, s.geo))
    ensures Distinct(s')
  {
    hide Low, High, Join, Pow2;
    forall v, w, x | 0 <= v < w < s.geo.ways && 0 <= x < s.geo.Sets() && s'.valid[v][x] && s'.valid[w][x]
      ensures s'.tag[v][x] != s'.tag[w][x]
    {
      assert !TagHit(s.valid, s.tag, v, z, FetchTag(s.pend.addr, s.geo));
      assert !TagHit(s.valid, s.tag, w, z, FetchTag(s.pend.addr, s.geo));
    }
  }

  /** The invariant survives every cycle: any request port activity, valid or not. */
  lemma FetchStepKeeps(main: MainMemory, y: Fetcher, i: FetchIn)
    requires IInv(y, main)
    ensures IInv(IStep(main, y, i), main)
  {
    hide IStep, Copies, Distinct, ReadyOk, StartOk, FilledOk, FillOk;
    if y.c.fsm.IcMiss? {
      if y.c.doneD {
        FilledEdge(y, i, main);
      } else if y.c.memCntD != 3 {
        MiddleFill(y, i, main);
      } else {
        LastFill(y, i, main);
      }
    } else if MissedD(y.c) {
      FormedStart(y, main);
      StartEdge(y, i, main);
    } else {
      ReadyEdge(y, i, main);
    }
  }

  lemma FormedStart(y: Fetcher, main: MainMemory)
    requires IInv(y, main) && !y.c.fsm.IcMiss? && MissedD(y.c)
    ensures y.c.fsm.IcReady?
  {
    hide Copies, Distinct;
  }

  // ---------------------------------------------------------------------------------------
  // Runs

  ghost predicate IsFetchRun(main: MainMemory, ys: seq<Fetcher>, ins: seq<FetchIn>) {
    && |ys| == |ins| + 1
    && (forall k :: 0 <= k < |ys| ==> Formed(ys[k].c))
    && forall k :: 0 <= k < |ins| ==> ys[k + 1] == IStep(main, ys[k], ins[k])
  }

  lemma {:induction false} FetchRunKeeps(main: MainMemory, ys: seq<Fetcher>, ins: seq<FetchIn>, n: nat)
    requires IsFetchRun(main, ys, ins) && n < |ys| && IInv(ys[0], main)
    ensures IInv(ys[n], main)
  {
    hide IStep, IInv, Formed;
    if n > 0 {
      FetchRunKeeps(main, ys, ins, n - 1);
      FetchStepKeeps(main, ys[n - 1], ins[n - 1]);
    }
  }

  /** Addresses accepted in the first n cycles, and the words answered in them. */
  function Accepted(ys: seq<Fetcher>, ins: seq<FetchIn>, n: nat): seq<WordAddr>
    requires n <= |ins| && n < |ys|
  {
    if n == 0 then []
    else Accepted(ys, ins, n - 1) + (if Accepts(ys[n - 1].c, ins[n - 1]) then [ins[n - 1].addr] else [])
  }
  ghost function Answered(ys: seq<Fetcher>, n: nat): seq<Word32>
    requires n <= |ys| && forall k :: 0 <= k < |ys| ==> Formed(ys[k].c)
  {
    if n == 0 then []
    else Answered(ys, n - 1) + (if IRspValid(ys[n - 1].c) then [RspWord(ys[n - 1].c)] else [])
  }

  /** The accepted address that has not been answered before this cycle. */
  function Waiting(s: ICache): seq<WordAddr> {
    if s.pend.active then [s.pend.addr] else if s.newReqD then [s.crD] else []
  }

  function FetchedAll(main: MainMemory, addrs: seq<WordAddr>): (ws: seq<Word32>)
    ensures |ws| == |addrs|
  {
    if addrs == [] then [] else FetchedAll(main, addrs[..|addrs| - 1]) + [Fetched(main, addrs[|addrs| - 1])]
  }

  lemma FetchedAllSnoc(main: MainMemory, addrs: seq<WordAddr>, a: WordAddr)
    ensures FetchedAll(main, addrs + [a]) == FetchedAll(main, addrs) + [Fetched(main, a)]
  {
    assert (addrs + [a])[..|addrs + [a]| - 1] == addrs;
  }

  /** One cycle of the handshake: a response answers the waiting request with its memory word; a new
      request is accepted only when nothing stays unanswered. */
  lemma Handshake(main: MainMemory, y: Fetcher, i: FetchIn)
    requires IInv(y, main)
    ensures var s := y.c;
      && (IRspValid(s) ==> Waiting(s) != [] && RspWord(s) == Fetched(main, Waiting(s)[0]))
      && (Accepts(s, i) ==> IRspValid(s) || Waiting(s) == [])
      && Waiting(INext(s, i, y.rsp)) ==
           (if Accepts(s, i) then [i.addr] else if IRspValid(s) then [] else Waiting(s))
  {
    hide Low, High, Join, Pow2, BusAddr, LookupWay, VictimWay, LruTouch, Copies, Distinct, Absent, IBankNext, IDoutNext, IValidNext,
         ITagNext, ILruNext, BankCell, TagHit, BeatsMatch;
  }

  /** done lists the answered addresses. */
  ghost predicate AnsweredInOrder(main: MainMemory, ys: seq<Fetcher>, ins: seq<FetchIn>, n: nat, done: seq<WordAddr>)
    requires n <= |ins| && n < |ys| && forall k :: 0 <= k < |ys| ==> Formed(ys[k].c)
  {
    Accepted(ys, ins, n) == done + Waiting(ys[n].c) && Answered(ys, n) == FetchedAll(main, done)
  }

  lemma AnswerStep(main: MainMemory, ys: seq<Fetcher>, ins: seq<FetchIn>, n: nat, before: seq<WordAddr>)
    returns (done: seq<WordAddr>)
    requires IsFetchRun(main, ys, ins) && 0 < n <= |ins| && IInv(ys[n - 1], main)
    requires AnsweredInOrder(main, ys, ins, n - 1, before)
    ensures AnsweredInOrder(main, ys, ins, n, done)
  {
    hide IStep, IInv, INext, Formed, Waiting, Fetched, Accepts, IRspValid, RspWord, FetchedAll;
    var y, i := ys[n - 1], ins[n - 1];
    var w := Waiting(y.c);
    Handshake(main, y, i);
    StepIsNext(main, y, i);
    WaitingShort(y.c);
    if IRspValid(y.c) {
      done := before + w;
      FetchedAllSnoc(main, before, w[0]);
      assert w == [w[0]];
    } else {
      done := before;
    }
  }

  /** For any memory that is not modified and any requests: the words answered so far are the memory
      words at the addresses accepted, in order and once each; at most one request is unanswered. */
  lemma {:induction false} AnswersAreMemory(main: MainMemory, ys: seq<Fetcher>, ins: seq<FetchIn>, n: nat)
    requires IsFetchRun(main, ys, ins) && n <= |ins| && IAfterReset(ys[0].c) && !ys[0].rsp.valid
    ensures exists done: seq<WordAddr> :: AnsweredInOrder(main, ys, ins, n, done)
    ensures |Waiting(ys[n].c)| <= 1
  {
    hide IStep, IInv, INext, IAfterReset, Formed, Waiting, FetchedAll;
    ResetHolds(ys[0], main);
    WaitingShort(ys[n].c);
    if n == 0 {
      ResetWaiting(ys[0].c);
      NoneFetched(main);
      assert AnsweredInOrder(main, ys, ins, n, []);
    } else {
      hide AnsweredInOrder;
      AnswersAreMemory(main, ys, ins, n - 1);
      var before: seq<WordAddr> :| AnsweredInOrder(main, ys, ins, n - 1, before);
      FetchRunKeeps(main, ys, ins, n - 1);
      var done := AnswerStep(main, ys, ins, n, before);
    }
  }

  lemma NoneFetched(main: MainMemory)
    ensures FetchedAll(main, []) == []
  {
  }

  lemma ResetWaiting(s: ICache)
    requires IAfterReset(s)
    ensures Waiting(s) == []
  {
  }

  lemma WaitingShort(s: ICache)
    ensures |Waiting(s)| <= 1
  {
  }

  lemma StepIsNext(main: MainMemory, y: Fetcher, i: FetchIn)
    requires Formed(y.c)
    ensures IStep(main, y, i).c == INext(y.c, i, y.rsp)
  {
  }

  // ---------------------------------------------------------------------------------------
  // Miss timing

  /** t cycles after a missing request for a was accepted. */
  ghost predicate MissPhase(y: Fetcher, a: WordAddr, t: nat) {
    var s := y.c;
    if t == 1 then s.fsm.IcReady? && MissedD(s) && s.crD == a && s.memCnt == 0 && !s.pend.active && !y.rsp.valid
    else if t <= 5 then
      && s.fsm.IcMiss? && !s.doneD && s.pend.active && s.pend.addr == a && s.pend.startAddr == BlockStart(a)
      && s.memCntD == t - 2 && s.memCnt == (t - 1) % 4 && y.rsp.valid
    else if t == 6 then s.fsm.IcMiss? && s.doneD && s.pend.active && s.pend.addr == a && s.memCnt == 0
    else s.fsm.IcReady? && s.pend.active && s.pend.addr == a
  }

  lemma BeatAddress(a: WordAddr, k: Cnt)
    ensures BusAddr(BlockStart(a) + k) == BlockStart(a) + k
  {
  }

  lemma MissAdvances(main: MainMemory, y: Fetcher, i: FetchIn, a: WordAddr, t: nat)
    requires Formed(y.c) && 1 <= t <= 6 && MissPhase(y, a, t)
    ensures MissPhase(IStep(main, y, i), a, t + 1)
    ensures !IReady(y.c) && !IRspValid(y.c)
    ensures IMemR(y.c) == if t <= 4 then Some(BlockStart(a) + t - 1) else None
  {
    hide Low, High, Join, Pow2, LookupWay, VictimWay, LruTouch, IBankNext, IDoutNext, IValidNext, ITagNext, ILruNext, BankCell;
    hide BusAddr, BlockStart, Cached, Lca, ReadWay, ReadAddr, VictimOf;
    BeatAddress(a, y.c.memCnt);
    if t == 1 {
    } else if t <= 5 {
      assert y.c.memCnt == (t - 1) % 4;
    }
  }

  /** A miss accepted in cycle n: exactly four ordered reads of its line in the next four cycles, the
      cache not ready for exactly six, and the answer in the seventh. */
  lemma {:induction false} MissTiming(main: MainMemory, ys: seq<Fetcher>, ins: seq<FetchIn>, n: nat, t: nat)
    requires IsFetchRun(main, ys, ins) && IInv(ys[0], main) && n + t <= |ins| && 1 <= t <= 7
    requires Accepts(ys[n].c, ins[n]) && !FetchHit(ys[n].c, ins[n])
    ensures MissPhase(ys[n + t], ins[n].addr, t)
    ensures IReady(ys[n + t].c) == IRspValid(ys[n + t].c) == (t == 7)
    ensures t <= 6 ==> IMemR(ys[n + t].c) == if t <= 4 then Some(BlockStart(ins[n].addr) + t - 1) else None
  {
    hide IStep, IInv, Formed, MissPhase, IReady, IRspValid, IMemR, Accepts, FetchHit;
    if t == 1 {
      FetchRunKeeps(main, ys, ins, n);
      MissStarts(main, ys[n], ins[n]);
    } else {
      MissTiming(main, ys, ins, n, t - 1);
      MissAdvances(main, ys[n + t - 1], ins[n + t - 1], ins[n].addr, t - 1);
    }
    if t <= 6 {
      MissAdvances(main, ys[n + t], ins[n + t - 1], ins[n].addr, t);
    } else {
      MissEnds(ys[n + t], ins[n].addr);
    }
  }

  lemma MissEnds(y: Fetcher, a: WordAddr)
    requires MissPhase(y, a, 7)
    ensures IReady(y.c) && IRspValid(y.c)
  {
  }

  lemma MissStarts(main: MainMemory, y: Fetcher, i: FetchIn)
    requires IInv(y, main) && Accepts(y.c, i) && !FetchHit(y.c, i)
    ensures MissPhase(IStep(main, y, i), i.addr, 1)
  {
    hide Low, High, Join, Pow2, LookupWay, VictimWay, LruTouch, IBankNext, IDoutNext, IValidNext, ITagNext, ILruNext,
      BankCell, Copies, Distinct, Absent, BeatsMatch;
  }

  /** A hit is answered in the next cycle, with the cache ready again. */
  lemma HitTiming(main: MainMemory, y: Fetcher, i: FetchIn)
    requires IInv(y, main) && FetchHit(y.c, i)
    ensures var y' := IStep(main, y, i);
      IRspValid(y'.c) && IReady(y'.c) && RspWord(y'.c) == Fetched(main, i.addr)
  {
    hide INext, RspWord, Fetched, Copies, Distinct, ReadyOk, StartOk, FillOk, FilledOk;
    FetchStepKeeps(main, y, i);
    Handshake(main, y, i);
    Handshake(main, IStep(main, y, i), i);
    HitRegistered(main, y, i);
  }

  lemma HitRegistered(main: MainMemory, y: Fetcher, i: FetchIn)
    requires IInv(y, main) && FetchHit(y.c, i)
    ensures var s' := INext(y.c, i, y.rsp); s'.fsm.IcReady? && s'.newReqD && s'.hitD && !s'.pend.active
  {
    hide Low, High, Join, Pow2, LookupWay, VictimWay, LruTouch, Copies, Distinct, Absent, IBankNext, IDoutNext, IValidNext, ITagNext;
  }
}
