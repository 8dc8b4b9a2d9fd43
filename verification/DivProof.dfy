/** Restoring divider: every run computes the ISA's quotients and remainders, in a known number of
    cycles, whatever starts and flushes arrive. */
module DivProof {
  import opened BitSlices
  import DivSpec
  import opened DivModel
  import opened DivArith

  /** The word the ISA requires for a request. */
  function Expected(i: In, lw: nat): nat
    requires InOk(i, lw)
  {
    if i.opRem then DivSpec.Remainder(i.opUns, i.a, i.b, Modulus(lw)) else DivSpec.Quotient(i.opUns, i.a, i.b, Modulus(lw))
  }

  /** The request a set of captured operands came from. */
  function Request(u: Setup): In { In(true, false, u.opRem, u.opUns, u.a, u.b) }

  ghost predicate Captured(u: Setup, lw: nat) { InOk(Request(u), lw) && u == SetupOf(Request(u), lw) }

  /** The result cache is never stale: a valid entry holds the results for its operands. */
  ghost predicate EntryFresh(s: Regs, lw: nat) {
    s.entryValid ==>
      && IsWord(s.entry.a, lw) && IsWord(s.entry.b, lw)
      && s.entry.quot == DivSpec.Quotient(s.entry.opUns, s.entry.a, s.entry.b, Modulus(lw))
      && s.entry.rem == DivSpec.Remainder(s.entry.opUns, s.entry.a, s.entry.b, Modulus(lw))
  }

  /** The iterative datapath works on the captured request, and the entry is reserved for it. */
  ghost predicate Working(s: Regs, k: nat, lw: nat) {
    var u, d := s.setup, s.ds;
    && Captured(u, lw) && !u.divByZero
    && d.divisor == u.absB && d.opRem == u.opRem && d.quotNeg == u.quotNeg && d.remNeg == u.remNeg
    && d.iterCount == k && Restoring(d, u.absA, k, lw)
    && !s.entryValid && s.entry.a == u.a && s.entry.b == u.b && s.entry.opUns == u.opUns
  }

  ghost predicate Inv(s: Regs, lw: nat) {
    && RegsOk(s, lw) && EntryFresh(s, lw)
    && match s.fsm
       case Idle => true
       case Setting => Captured(s.setup, lw)
       case Iterating => 1 <= s.ds.iterCount < Width(lw) && Working(s, s.ds.iterCount, lw)
       case Fixing => Working(s, 0, lw)
  }

  lemma ResetOk(s: Regs, lw: nat)
    requires s.fsm.Idle? && s.setup == SETUP0 && s.ds == DS0 && !s.entryValid
    ensures Inv(s, lw)
  {
  }

  // ---------------------------------------------------------------------------------------
  // Edges

  lemma StartStep(s: Regs, i: In, lw: nat)
    requires lw > 0 && Inv(s, lw) && InOk(i, lw) && s.fsm.Idle? && i.start && !i.flush
    ensures var s' := Next(s, i, lw);
      && Inv(s', lw)
      && (if CacheHit(s, i) then s'.fsm.Idle? && s'.ds.result == Expected(i, lw)
          else s'.fsm.Setting? && s'.setup == SetupOf(i, lw))
  {
    hide Neg, Pow2, High, Low, Restoring, DivSpec.Quotient, DivSpec.Remainder;
    if !CacheHit(s, i) {
      SetupMeaning(i, lw);
      SetupCopies(i, lw);
      CapturedStart(i, lw);
    }
  }

  lemma CapturedStart(i: In, lw: nat)
    requires InOk(i, lw)
    ensures Captured(SetupOf(i, lw), lw)
  {
  }

  /** A divisor that reaches the iterative path is not a power of two, so it is at least 3 and never
      needs all W steps. */
  lemma IterationsBounded(u: Setup, lw: nat)
    requires lw > 0 && Captured(u, lw) && !Special(u)
    ensures 0 < u.absB <= u.absA && IsWord(u.absA, lw)
    ensures IterCount(u, lw) == Clz(u.absB, lw) - Clz(u.absA, lw) + 1
    ensures 1 <= IterCount(u, lw) < Width(lw)
  {
    hide Neg, Pow2, High, Low, Clz, And;
    SetupMeaning(Request(u), lw);
    IterCountRange(u, lw);
    if Clz(u.absB, lw) == Width(lw) - 1 {
      ClzLeading(u.absB, lw);
      AndPred(u.absB, 0);
      LeadingOne(u.absB, 0);
      SmallPowers();
    }
  }

  lemma SetupStep(s: Regs, i: In, lw: nat)
    requires lw > 0 && Inv(s, lw) && InOk(i, lw) && s.fsm.Setting? && !i.flush
    ensures var s' := Next(s, i, lw);
      && Inv(s', lw)
      && (if Special(s.setup) then s'.fsm.Idle? && s'.ds.result == Expected(Request(s.setup), lw)
          else s'.fsm.Iterating? && s'.setup == s.setup && s'.ds.iterCount == IterCount(s.setup, lw))
  {
    hide Neg, Pow2, High, Low, Clz, And, DivSpec.Quotient, DivSpec.Remainder, Shl, Special, IterCount, SpecialResult;
    var u := s.setup;
    if Special(u) {
      SpecialCorrect(Request(u), lw);
    } else {
      SetupIterates(u, lw);
    }
  }

  lemma SetupIterates(u: Setup, lw: nat)
    requires lw > 0 && Captured(u, lw) && !Special(u)
    ensures IsWord(u.absA, lw) && IsWord(u.absB, lw) && !u.divByZero && 1 <= IterCount(u, lw) < Width(lw)
    ensures var n, m := IterCount(u, lw), Modulus(lw);
      var d := Ds(0, Shl(u.absA, Skip(u, lw), m), u.absB, 0, Shr(u.absA, n), n, u.opRem, u.quotNeg, u.remNeg);
      IsWord(d.dividend, lw) && IsWord(d.rem, lw) && Restoring(d, u.absA, n, lw)
  {
    hide Neg, High, Low, Clz, And, Shl, IterCount;
    IterationsBounded(u, lw);
    SetupMeaning(Request(u), lw);
    NormaliseCorrect(u, lw);
    LeftAlignedWord(Low(u.absA, IterCount(u, lw)), IterCount(u, lw), Width(lw));
  }

  lemma IterateStep(s: Regs, i: In, lw: nat)
    requires lw > 0 && Inv(s, lw) && InOk(i, lw) && s.fsm.Iterating? && !i.flush
    ensures var s' := Next(s, i, lw);
      && Inv(s', lw) && s'.setup == s.setup
      && (if s.ds.iterCount == 1 then s'.fsm.Fixing? else s'.fsm.Iterating? && s'.ds.iterCount == s.ds.iterCount - 1)
  {
    hide Neg, Pow2, High, Low, Iterate, DivSpec.Quotient, DivSpec.Remainder;
    var k := s.ds.iterCount;
    IterateKeeps(s.ds, s.setup.absA, k, lw);
    RestoringWords(s.ds, s.setup.absA, k, lw);
    var t := Iterate(s.ds, Modulus(lw));
    RestoringWords(s.ds.(dividend := t.dividend, quot := t.quot, rem := t.rem), s.setup.absA, k - 1, lw);
    ModOnce(k - 1, 2 * Width(lw));
    assert k + 2 * Width(lw) - 1 == 2 * Width(lw) + (k - 1);
  }

  /** The restoring invariant keeps every register within its width. */
  lemma RestoringWords(d: Ds, absA: nat, k: nat, lw: nat)
    requires Restoring(d, absA, k, lw)
    ensures IsWord(d.dividend, lw) && IsWord(d.rem, lw) && IsWord(d.quot, lw)
  {
    hide High, Low;
    LeftAlignedWord(Low(absA, k), k, Width(lw));
    Pow2Monotone(Width(lw) - k, Width(lw));
  }

  lemma FixStep(s: Regs, i: In, lw: nat)
    requires lw > 0 && Inv(s, lw) && InOk(i, lw) && s.fsm.Fixing? && !i.flush
    ensures var s' := Next(s, i, lw);
      && Inv(s', lw) && s'.fsm.Idle? && s'.ds.result == Expected(Request(s.setup), lw)
  {
    hide Neg, Pow2, Low, DivSpec.Quotient, DivSpec.Remainder;
    var u, d := s.setup, s.ds;
    RestoringWords(d, u.absA, 0, lw);
    assert High(u.absA, 0) == u.absA;
    SetupMeaning(Request(u), lw);
    DivUnique(u.absA, u.absB, d.quot, d.rem);
    FixupCorrect(Request(u), lw, d.quot, d.rem);
  }

  /** Every clock edge keeps the invariant, with any start, operands and flush. */
  lemma StepKeeps(s: Regs, i: In, lw: nat)
    requires lw > 0 && Inv(s, lw) && InOk(i, lw)
    ensures Inv(Next(s, i, lw), lw)
  {
    hide Neg, Pow2, High, Low, Iterate, Restoring, DivSpec.Quotient, DivSpec.Remainder;
    if !i.flush {
      match s.fsm
      case Idle => if i.start { StartStep(s, i, lw); }
      case Setting => SetupStep(s, i, lw);
      case Iterating => IterateStep(s, i, lw);
      case Fixing => FixStep(s, i, lw);
    }
  }

  // ---------------------------------------------------------------------------------------
  // Whole runs

  ghost predicate IsRun(ys: seq<Regs>, ins: seq<In>, lw: nat) {
    && |ys| == |ins| + 1
    && forall k :: 0 <= k < |ins| ==> InOk(ins[k], lw) && RegsOk(ys[k], lw) && ys[k + 1] == Next(ys[k], ins[k], lw)
  }

  /** Never stale: in every state of every run from reset, with starts and flushes at arbitrary
      cycles, a valid entry holds the ISA's results for its operands. */
  lemma {:induction false} RunKeeps(ys: seq<Regs>, ins: seq<In>, lw: nat, n: nat)
    requires lw > 0 && IsRun(ys, ins, lw) && n < |ys|
    requires Inv(ys[0], lw)
    ensures Inv(ys[n], lw) && EntryFresh(ys[n], lw)
  {
    hide Next, Pow2, EntryFresh, RegsOk;
    if n > 0 {
      RunKeeps(ys, ins, lw, n - 1);
      StepKeeps(ys[n - 1], ins[n - 1], lw);
    }
    InvFresh(ys[n], lw);
  }

  lemma InvFresh(s: Regs, lw: nat)
    requires Inv(s, lw)
    ensures EntryFresh(s, lw)
  {
  }

  /** Cycles from the start of a request to its result. */
  function Latency(s: Regs, i: In, lw: nat): nat
    requires InOk(i, lw)
  {
    if CacheHit(s, i) then 1 else if Special(SetupOf(i, lw)) then 2 else 3 + IterCount(SetupOf(i, lw), lw)
  }

  /** The iterative latency is 3 + (clz|b| - clz|a| + 1), and no request takes more than W + 2. */
  lemma LatencyBound(s: Regs, i: In, lw: nat)
    requires lw > 0 && InOk(i, lw)
    ensures 1 <= Latency(s, i, lw) <= Width(lw) + 2
    ensures !CacheHit(s, i) && !Special(SetupOf(i, lw)) ==>
      Latency(s, i, lw) == 3 + (Clz(SetupOf(i, lw).absB, lw) - Clz(SetupOf(i, lw).absA, lw) + 1)
  {
    hide Neg, High, Low, Clz, And, SetupOf, IterCount;
    CapturedStart(i, lw);
    if !Special(SetupOf(i, lw)) {
      IterationsBounded(SetupOf(i, lw), lw);
    }
  }

  /** Where the divider is t cycles into an unflushed request. */
  ghost predicate At(s: Regs, i: In, t: nat, lw: nat)
    requires InOk(i, lw)
  {
    var u := SetupOf(i, lw);
    && Inv(s, lw) && s.setup == u
    && if t == 1 then s.fsm.Setting?
       else if t < 2 + IterCount(u, lw) then s.fsm.Iterating? && s.ds.iterCount == IterCount(u, lw) + 2 - t
       else s.fsm.Fixing?
  }

  lemma AtStep(s: Regs, i: In, j: In, t: nat, lw: nat)
    requires lw > 0 && InOk(i, lw) && InOk(j, lw) && !j.flush && 1 <= t && At(s, i, t, lw)
    requires !Special(SetupOf(i, lw)) && t < 2 + IterCount(SetupOf(i, lw), lw)
    ensures At(Next(s, j, lw), i, t + 1, lw)
  {
    hide Neg, Pow2, High, Low, Clz, And, Next, SetupOf, Special, IterCount, Inv, RegsOk;
    InvRegs(s, lw);
    if t == 1 {
      SetupStep(s, j, lw);
      IterationsBounded(SetupOf(i, lw), lw) by {
        CapturedStart(i, lw);
      }
    } else {
      IterateStep(s, j, lw);
    }
  }

  lemma InvRegs(s: Regs, lw: nat)
    requires Inv(s, lw)
    ensures RegsOk(s, lw)
  {
  }

  lemma {:induction false} Progress(ys: seq<Regs>, ins: seq<In>, lw: nat, t: nat)
    requires lw > 0 && IsRun(ys, ins, lw) && ins != [] && Inv(ys[0], lw)
    requires ys[0].fsm.Idle? && ins[0].start && forall k :: 0 <= k < |ins| ==> !ins[k].flush
    requires !CacheHit(ys[0], ins[0]) && 1 <= t < |ys|
    requires t == 1 || (!Special(SetupOf(ins[0], lw)) && t <= 2 + IterCount(SetupOf(ins[0], lw), lw))
    ensures At(ys[t], ins[0], t, lw)
  {
    hide Neg, Pow2, High, Low, Clz, And, Next, SetupOf, Special, IterCount, Inv, RegsOk;
    if t == 1 {
      StartStep(ys[0], ins[0], lw);
    } else {
      Progress(ys, ins, lw, t - 1);
      AtStep(ys[t - 1], ins[0], ins[t - 1], t - 1, lw);
    }
  }

  /** A request that is started when idle and not flushed: the divider is busy until exactly its
      latency has passed and then holds the ISA's result, whichever path it took. Inputs on the
      start and operand ports during the run are ignored. */
  lemma RequestServed(ys: seq<Regs>, ins: seq<In>, lw: nat)
    requires lw > 0 && IsRun(ys, ins, lw) && ins != [] && Inv(ys[0], lw)
    requires ys[0].fsm.Idle? && ins[0].start && forall k :: 0 <= k < |ins| ==> !ins[k].flush
    requires |ins| == Latency(ys[0], ins[0], lw)
    ensures forall t :: 1 <= t < |ins| ==> Busy(ys[t], ins[t])
    ensures ys[|ins|].fsm.Idle? && ys[|ins|].ds.result == Expected(ins[0], lw)
  {
    hide Neg, Pow2, High, Low, Clz, And, Next, SetupOf, Special, IterCount, Inv, RegsOk, Expected;
    var i, n := ins[0], |ins|;
    if CacheHit(ys[0], i) {
      StartStep(ys[0], i, lw);
    } else {
      forall t | 1 <= t < n
        ensures Busy(ys[t], ins[t])
      {
        Progress(ys, ins, lw, t);
      }
      Progress(ys, ins, lw, n - 1);
      Finish(ys[n - 1], i, ins[n - 1], n - 1, lw);
    }
  }

  lemma Finish(s: Regs, i: In, j: In, t: nat, lw: nat)
    requires lw > 0 && InOk(i, lw) && InOk(j, lw) && !j.flush && At(s, i, t, lw) && RegsOk(s, lw)
    requires if Special(SetupOf(i, lw)) then t == 1 else t == 2 + IterCount(SetupOf(i, lw), lw)
    ensures Next(s, j, lw).fsm.Idle? && Next(s, j, lw).ds.result == Expected(i, lw)
  {
    hide Neg, Pow2, High, Low, Clz, And, Next, SetupOf, Special, IterCount, Inv, RegsOk;
    SetupCopies(i, lw);
    if Special(SetupOf(i, lw)) {
      SetupStep(s, j, lw);
    } else {
      IterationsBounded(SetupOf(i, lw), lw) by {
        CapturedStart(i, lw);
      }
      FixStep(s, j, lw);
    }
  }

  // ---------------------------------------------------------------------------------------
  // After a request, and after a flush

  /** A start that the divider takes. */
  predicate Accepts(s: Regs, i: In) { s.fsm.Idle? && i.start && !i.flush }

  /** An edge with flush, or without a start while idle, leaves the divider idle and everything a later
      request depends on as it was. */
  lemma Untouched(s: Regs, i: In, lw: nat)
    requires RegsOk(s, lw) && InOk(i, lw) && (i.flush || (s.fsm.Idle? && !i.start))
    ensures var s' := Next(s, i, lw);
      s'.fsm.Idle? && s'.ds.result == s.ds.result && s'.entry == s.entry && s'.entryValid == s.entryValid
  {
    hide Pow2, SetupOf, Special, IterCount, SpecialResult, Iterate, QuotFixed, RemFixed, Clz;
  }

  /** Only an answer writes the result: a start that hits, a special case, or the fixup. */
  lemma OnlyAnswersWrite(s: Regs, i: In, lw: nat)
    requires RegsOk(s, lw) && InOk(i, lw)
    requires i.flush || s.fsm.Iterating? || (s.fsm.Setting? && !Special(s.setup)) || (s.fsm.Idle? && !CacheHit(s, i))
    ensures Next(s, i, lw).ds.result == s.ds.result
  {
    hide Pow2, SetupOf, Special, IterCount, SpecialResult, Iterate, QuotFixed, RemFixed, Clz;
  }

  lemma {:induction false} UntouchedWhile(ys: seq<Regs>, ins: seq<In>, lw: nat, m: nat, n: nat)
    requires IsRun(ys, ins, lw) && m <= n < |ys| && ys[m].fsm.Idle?
    requires forall k :: m <= k < n ==> !(ins[k].start && !ins[k].flush)
    ensures ys[n].fsm.Idle? && ys[n].ds.result == ys[m].ds.result
    ensures ys[n].entry == ys[m].entry && ys[n].entryValid == ys[m].entryValid
    decreases n
  {
    hide Next, RegsOk;
    if n > m {
      UntouchedWhile(ys, ins, lw, m, n - 1);
      Untouched(ys[n - 1], ins[n - 1], lw);
    }
  }

  /** From the cycle in which a request is served until the next accepted start, with any flushes: the
      divider stays idle and holds the result; an iterative request also stays in the result cache. */
  lemma ResultHeld(ys: seq<Regs>, ins: seq<In>, lw: nat, n: nat)
    requires lw > 0 && IsRun(ys, ins, lw) && ins != [] && Inv(ys[0], lw) && Accepts(ys[0], ins[0])
    requires Latency(ys[0], ins[0], lw) <= n < |ys|
    requires forall k :: 0 <= k < Latency(ys[0], ins[0], lw) ==> !ins[k].flush
    requires forall k :: Latency(ys[0], ins[0], lw) <= k < n ==> !(ins[k].start && !ins[k].flush)
    ensures ys[n].fsm.Idle? && (forall i: In :: !Busy(ys[n], i)) && ys[n].ds.result == Expected(ins[0], lw)
    ensures !CacheHit(ys[0], ins[0]) && !Special(SetupOf(ins[0], lw)) ==> EntryFor(ys[n], ins[0])
  {
    hide Next, Inv, RegsOk, SetupOf, Special, Expected, IterCount;
    var l := Latency(ys[0], ins[0], lw);
    LatencyBound(ys[0], ins[0], lw);
    RequestServed(ys[..l + 1], ins[..l], lw);
    if !CacheHit(ys[0], ins[0]) && !Special(SetupOf(ins[0], lw)) {
      Progress(ys[..l], ins[..l - 1], lw, l - 1);
      Stored(ys[l - 1], ins[0], ins[l - 1], lw);
    }
    UntouchedWhile(ys, ins, lw, l, n);
  }

  /** The result cache is filled for the operands of a request. */
  predicate EntryFor(s: Regs, i: In) {
    s.entryValid && s.entry.a == i.a && s.entry.b == i.b && s.entry.opUns == i.opUns
  }

  lemma Stored(s: Regs, i: In, j: In, lw: nat)
    requires lw > 0 && InOk(i, lw) && InOk(j, lw) && !j.flush && RegsOk(s, lw)
    requires !Special(SetupOf(i, lw)) && At(s, i, 2 + IterCount(SetupOf(i, lw), lw), lw)
    ensures EntryFor(Next(s, j, lw), i)
  {
    hide Pow2, Special, IterCount, Neg, Clz, Restoring, EntryFresh, QuotFixed, RemFixed, Iterate, SpecialResult;
    SetupCopies(i, lw);
    IterationsBounded(SetupOf(i, lw), lw) by {
      CapturedStart(i, lw);
    }
  }

  /** The same operands again, for quotient or remainder: one cycle, with the same division's results. */
  lemma RepeatHits(ys: seq<Regs>, ins: seq<In>, lw: nat, n: nat)
    requires lw > 0 && IsRun(ys, ins, lw) && ins != [] && Inv(ys[0], lw) && Accepts(ys[0], ins[0])
    requires Latency(ys[0], ins[0], lw) <= n < |ins|
    requires forall k :: 0 <= k < Latency(ys[0], ins[0], lw) ==> !ins[k].flush
    requires forall k :: Latency(ys[0], ins[0], lw) <= k < n ==> !(ins[k].start && !ins[k].flush)
    requires !CacheHit(ys[0], ins[0]) && !Special(SetupOf(ins[0], lw))
    requires ins[n].start && !ins[n].flush && ins[n].a == ins[0].a && ins[n].b == ins[0].b && ins[n].opUns == ins[0].opUns
    ensures Latency(ys[n], ins[n], lw) == 1
    ensures ys[n + 1].fsm.Idle? && ys[n + 1].ds.result == Expected(ins[n], lw)
  {
    hide Next, Inv, RegsOk, SetupOf, Special, Expected, IterCount, EntryFresh;
    ResultHeld(ys, ins, lw, n);
    RunKeeps(ys, ins, lw, n);
    StartStep(ys[n], ins[n], lw);
  }

  /** A flush in any cycle: idle at the next edge with result and cache as they were, and a start in the
      cycle after it is served like any other. */
  lemma ServedAfterFlush(ys: seq<Regs>, ins: seq<In>, lw: nat)
    requires lw > 0 && IsRun(ys, ins, lw) && |ins| >= 2 && Inv(ys[0], lw)
    requires ins[0].flush && ins[1].start && forall k :: 1 <= k < |ins| ==> !ins[k].flush
    requires |ins| == 1 + Latency(ys[1], ins[1], lw)
    ensures !Busy(ys[0], ins[0]) && ys[1].fsm.Idle? && ys[1].ds.result == ys[0].ds.result
    ensures ys[1].entry == ys[0].entry && ys[1].entryValid == ys[0].entryValid
    ensures ys[|ins|].fsm.Idle? && ys[|ins|].ds.result == Expected(ins[1], lw)
  {
    hide Next, Inv, RegsOk, SetupOf, Special, Expected, IterCount;
    Untouched(ys[0], ins[0], lw);
    StepKeeps(ys[0], ins[0], lw);
    RequestServed(ys[1..], ins[1..], lw);
  }

  // ---------------------------------------------------------------------------------------
  // What the result cache remembers

  datatype Key = NoKey | Key(a: nat, b: nat, opUns: bool)

  /** The operands of the last request that ran through FIXUP, forgotten when another one enters the
      iterations. */
  function Remembered(ys: seq<Regs>, ins: seq<In>, n: nat): Key
    requires n <= |ins| && n < |ys|
  {
    if n == 0 then NoKey
    else
      var s, i := ys[n - 1], ins[n - 1];
      if i.flush then Remembered(ys, ins, n - 1)
      else if s.fsm.Fixing? then Key(s.setup.a, s.setup.b, s.setup.opUns)
      else if s.fsm.Setting? && !Special(s.setup) then NoKey
      else Remembered(ys, ins, n - 1)
  }

  /** In every run from reset a start hits exactly when it repeats what is remembered. */
  lemma HitsExactly(ys: seq<Regs>, ins: seq<In>, lw: nat, n: nat)
    requires lw > 0 && IsRun(ys, ins, lw) && n < |ys| && Inv(ys[0], lw) && !ys[0].entryValid
    ensures ys[n].entryValid <==> Remembered(ys, ins, n).Key?
    ensures forall i: In :: CacheHit(ys[n], i) <==>
      ys[n].fsm.Idle? && i.start && Remembered(ys, ins, n) == Key(i.a, i.b, i.opUns)
  {
    hide Next, Inv, RegsOk, Remembered;
    KeysFollow(ys, ins, lw, n);
  }

  lemma {:induction false} KeysFollow(ys: seq<Regs>, ins: seq<In>, lw: nat, n: nat)
    requires lw > 0 && IsRun(ys, ins, lw) && n < |ys| && Inv(ys[0], lw) && !ys[0].entryValid
    ensures Remembered(ys, ins, n)
         == if ys[n].entryValid then Key(ys[n].entry.a, ys[n].entry.b, ys[n].entry.opUns) else NoKey
  {
    hide Next, Inv, RegsOk, Special;
    if n > 0 {
      KeysFollow(ys, ins, lw, n - 1);
      RunKeeps(ys, ins, lw, n - 1);
      KeyStep(ys[n - 1], ins[n - 1], lw);
    }
  }

  lemma KeyStep(s: Regs, i: In, lw: nat)
    requires lw > 0 && Inv(s, lw) && RegsOk(s, lw) && InOk(i, lw)
    ensures var s' := Next(s, i, lw);
      if i.flush then s'.entry == s.entry && s'.entryValid == s.entryValid
      else if s.fsm.Fixing? then
        s'.entryValid && s'.entry.a == s.setup.a && s'.entry.b == s.setup.b && s'.entry.opUns == s.setup.opUns
      else if s.fsm.Setting? && !Special(s.setup) then !s'.entryValid
      else s'.entry == s.entry && s'.entryValid == s.entryValid
  {
    hide Pow2, Special, IterCount, Neg, Clz, Restoring, EntryFresh, QuotFixed, RemFixed, Iterate, SpecialResult, SetupOf;
  }
}
