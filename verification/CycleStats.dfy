/** Cycle accounting: the priority chain that tags every cycle, and the counters that add the tags up
    and derive the rest by subtraction. */
module CycleStats {

  /** Cycle tags as they reach the retire stage. */
  datatype Tags = Tags(
    badSpec: bool, stallL1d: bool, stallL1dR: bool, stallLoadUse: bool, stallMulSimdUse: bool, stallDiv: bool,
    stallCsr: bool, stallL1i: bool, stallActFlow: bool, specIcMissSink: bool)

  /** The events of one cycle that take part in the accounting. */
  datatype Event = Event(
    retInst: bool, badSpec: bool, stallBe: bool, stallL1d: bool, stallL1dR: bool, stallLoadUse: bool,
    stallMulSimdUse: bool, stallDiv: bool, stallFe: bool, stallL1i: bool)

  const NO_EVENT := Event(false, false, false, false, false, false, false, false, false, false)

  /** The priority chain: a retired instruction, else bad speculation, else the back end, else the front
      end. */
  function Chain(retired: bool, t: Tags): Event {
    var e := NO_EVENT.(retInst := retired);
    if retired then e
    else if t.badSpec then e.(badSpec := true)
    else
      var be := t.stallL1d || t.stallLoadUse || t.stallMulSimdUse || t.stallDiv || t.stallCsr;
      var e1 := e.(stallBe := be, stallL1d := t.stallL1d, stallL1dR := t.stallL1dR, stallLoadUse := t.stallLoadUse,
                   stallMulSimdUse := t.stallMulSimdUse, stallDiv := t.stallDiv);
      if be then e1
      else e1.(stallFe := t.stallL1i || t.stallActFlow || t.specIcMissSink, stallL1i := t.stallL1i)
  }

  /** A back-end stall of any kind. */
  predicate BackEnd(t: Tags) { t.stallL1d || t.stallLoadUse || t.stallMulSimdUse || t.stallDiv || t.stallCsr }

  /** Which event a cycle is, when several tags are set: retiring comes first, then bad speculation, then the
      back end with its causes, and the front end only when none of these holds. */
  lemma ChainPriority(retired: bool, t: Tags)
    ensures var e := Chain(retired, t);
      && e.retInst == retired && e.badSpec == (!retired && t.badSpec)
      && var open_ := !retired && !t.badSpec;
      && e.stallBe == (open_ && BackEnd(t)) && e.stallL1d == (open_ && t.stallL1d) && e.stallL1dR == (open_ && t.stallL1dR)
      && e.stallLoadUse == (open_ && t.stallLoadUse) && e.stallMulSimdUse == (open_ && t.stallMulSimdUse)
      && e.stallDiv == (open_ && t.stallDiv)
      && e.stallFe == (open_ && !BackEnd(t) && (t.stallL1i || t.stallActFlow || t.specIcMissSink))
      && e.stallL1i == (open_ && !BackEnd(t) && t.stallL1i)
  {
  }

  const MAX: nat := 0x1_0000_0000_0000_0000

  function Bit(b: bool): nat { if b then 1 else 0 }

  /** The events counted beside the chain, in the order of their counters from control flow to cache
      write-backs; the eighth is the retired packed instruction. */
  const UNITS: nat := 20
  const RET_SIMD: nat := 7
  type Flags = f: seq<bool> | |f| == 20 witness seq(20, _ => false)

  /** One accounted cycle: whether the profiler is on, what the chain sees, and the other events. */
  datatype Cycle = Cycle(active: bool, retired: bool, tags: Tags, flags: Flags)

  datatype Counts = Counts(
    cyclesAll: nat, retAll: nat, cycles: nat, retInst: nat, badSpec: nat, stallBe: nat, stallL1d: nat, stallL1dR: nat,
    stallLoadUse: nat, stallMulSimdUse: nat, stallDiv: nat, stallFe: nat, stallL1i: nat)

  const ZERO := Counts(0, 0, 0, 0, 0, 0, 0, 0, 0, 0, 0, 0, 0)

  /** One more cycle, counted without any limit. */
  function Counted(c: Counts, active: bool, e: Event): Counts {
    var c1 := c.(cyclesAll := c.cyclesAll + 1, retAll := c.retAll + Bit(e.retInst));
    if !active then c1
    else c1.(cycles := c.cycles + 1, retInst := c.retInst + Bit(e.retInst), badSpec := c.badSpec + Bit(e.badSpec),
             stallBe := c.stallBe + Bit(e.stallBe), stallL1d := c.stallL1d + Bit(e.stallL1d),
             stallL1dR := c.stallL1dR + Bit(e.stallL1dR), stallLoadUse := c.stallLoadUse + Bit(e.stallLoadUse),
             stallMulSimdUse := c.stallMulSimdUse + Bit(e.stallMulSimdUse), stallDiv := c.stallDiv + Bit(e.stallDiv),
             stallFe := c.stallFe + Bit(e.stallFe), stallL1i := c.stallL1i + Bit(e.stallL1i))
  }

  /** How often each event happened in a run. */
  function Tally(run: seq<Cycle>): Counts {
    if run == [] then ZERO
    else var x := run[|run| - 1]; Counted(Tally(run[..|run| - 1]), x.active, Chain(x.retired, x.tags))
  }

  /** The counters of the chain, each with the cycles it counts. */
  datatype Counter = AllRetired | Accounted | Retired | BadSpec | Be | L1d | L1dR | LoadUse | MulSimdUse | Div | Fe | L1i

  predicate CountedIn(k: Counter, x: Cycle) {
    var t, open_ := x.tags, x.active && !x.retired && !x.tags.badSpec;
    match k
    case AllRetired => x.retired
    case Accounted => x.active
    case Retired => x.active && x.retired
    case BadSpec => x.active && !x.retired && t.badSpec
    case Be => open_ && BackEnd(t)
    case L1d => open_ && t.stallL1d
    case L1dR => open_ && t.stallL1dR
    case LoadUse => open_ && t.stallLoadUse
    case MulSimdUse => open_ && t.stallMulSimdUse
    case Div => open_ && t.stallDiv
    case Fe => open_ && !BackEnd(t) && (t.stallL1i || t.stallActFlow || t.specIcMissSink)
    case L1i => open_ && !BackEnd(t) && t.stallL1i
  }

  function CyclesOf(run: seq<Cycle>, k: Counter): nat {
    if run == [] then 0 else CyclesOf(run[..|run| - 1], k) + Bit(CountedIn(k, run[|run| - 1]))
  }

  /** One cycle adds to each counter that counts it. */
  lemma CountedAdds(c: Counts, x: Cycle)
    ensures var d := Counted(c, x.active, Chain(x.retired, x.tags));
      && d.cyclesAll == c.cyclesAll + 1 && d.retAll == c.retAll + Bit(CountedIn(AllRetired, x))
      && d.cycles == c.cycles + Bit(CountedIn(Accounted, x)) && d.retInst == c.retInst + Bit(CountedIn(Retired, x))
      && d.badSpec == c.badSpec + Bit(CountedIn(BadSpec, x)) && d.stallBe == c.stallBe + Bit(CountedIn(Be, x))
      && d.stallL1d == c.stallL1d + Bit(CountedIn(L1d, x)) && d.stallL1dR == c.stallL1dR + Bit(CountedIn(L1dR, x))
      && d.stallLoadUse == c.stallLoadUse + Bit(CountedIn(LoadUse, x))
      && d.stallMulSimdUse == c.stallMulSimdUse + Bit(CountedIn(MulSimdUse, x))
      && d.stallDiv == c.stallDiv + Bit(CountedIn(Div, x)) && d.stallFe == c.stallFe + Bit(CountedIn(Fe, x))
      && d.stallL1i == c.stallL1i + Bit(CountedIn(L1i, x))
  {
    hide Chain;
    ChainPriority(x.retired, x.tags);
  }

  /** Over any run every counter is the number of the cycles it counts. */
  lemma {:induction false} TallyCounts(run: seq<Cycle>)
    ensures var c := Tally(run);
      && c.cyclesAll == |run| && c.retAll == CyclesOf(run, AllRetired) && c.cycles == CyclesOf(run, Accounted)
      && c.retInst == CyclesOf(run, Retired) && c.badSpec == CyclesOf(run, BadSpec) && c.stallBe == CyclesOf(run, Be)
      && c.stallL1d == CyclesOf(run, L1d) && c.stallL1dR == CyclesOf(run, L1dR) && c.stallLoadUse == CyclesOf(run, LoadUse)
      && c.stallMulSimdUse == CyclesOf(run, MulSimdUse) && c.stallDiv == CyclesOf(run, Div)
      && c.stallFe == CyclesOf(run, Fe) && c.stallL1i == CyclesOf(run, L1i)
  {
    hide Chain, Counted, CountedIn;
    if run != [] {
      var x := run[|run| - 1];
      TallyCounts(run[..|run| - 1]);
      CountedAdds(Tally(run[..|run| - 1]), x);
    }
  }

  /** Each cycle is in at most one class, and a cause is never counted outside its class. */
  lemma OneClass(retired: bool, t: Tags)
    ensures var e := Chain(retired, t);
      && Bit(e.retInst) + Bit(e.badSpec) + Bit(e.stallBe) + Bit(e.stallFe) <= 1
      && (e.stallL1d || e.stallLoadUse || e.stallMulSimdUse || e.stallDiv ==> e.stallBe)
      && (e.stallL1i ==> e.stallFe)
  {
  }

  /** Over any run: retired, bad-speculation and stall cycles never add up to more than all cycles, and
      each cause to no more than its class. */
  lemma {:induction false} Conserved(run: seq<Cycle>)
    ensures var c := Tally(run);
      && c.retInst + c.badSpec + c.stallBe + c.stallFe <= c.cycles <= c.cyclesAll == |run|
      && c.stallL1d <= c.stallBe && c.stallL1i <= c.stallFe && c.retInst <= c.retAll <= c.cyclesAll
  {
    if run != [] {
      var x := run[|run| - 1];
      Conserved(run[..|run| - 1]);
      OneClass(x.retired, x.tags);
    }
  }

  /** Cycles in which the profiler is on, nothing retires and no tag explains why. */
  function Unexplained(run: seq<Cycle>): nat {
    if run == [] then 0
    else
      var x := run[|run| - 1];
      var e := Chain(x.retired, x.tags);
      Unexplained(run[..|run| - 1]) + Bit(x.active && !e.retInst && !e.badSpec && !e.stallBe && !e.stallFe)
  }

  lemma {:induction false} Remainder(run: seq<Cycle>)
    ensures var c := Tally(run); c.cycles == c.retInst + c.badSpec + c.stallBe + c.stallFe + Unexplained(run)
  {
    if run != [] {
      var x := run[|run| - 1];
      Remainder(run[..|run| - 1]);
      OneClass(x.retired, x.tags);
    }
  }

  /** How often one of the other events happened. */
  function UnitTally(run: seq<Cycle>, k: nat): (n: nat)
    requires k < UNITS
    ensures n <= |run|
  {
    if run == [] then 0
    else var x := run[|run| - 1]; UnitTally(run[..|run| - 1], k) + Bit(x.active && x.flags[k])
  }

  /** If a packed instruction is reported only in a cycle in which an instruction retires, there are no
      more of them than retired instructions. */
  lemma {:induction false} SimdRetires(run: seq<Cycle>)
    requires forall k :: 0 <= k < |run| ==> run[k].flags[RET_SIMD] ==> run[k].retired
    ensures UnitTally(run, RET_SIMD) <= Tally(run).retInst
  {
    if run != [] {
      SimdRetires(run[..|run| - 1]);
      assert run[|run| - 1].flags[RET_SIMD] ==> run[|run| - 1].retired;
    }
  }

  // ---------------------------------------------------------------------------------------
  // 64-bit counters

  function Add64(x: nat, b: bool): (r: nat) { (x + Bit(b)) % MAX }
  function Sum64(x: nat, y: nat): (r: nat) { (x + y) % MAX }
  function Sub64(x: nat, y: nat): (r: nat) { (x - y) % MAX }

  lemma Add64Wraps(x: nat, b: bool)
    ensures Add64(x % MAX, b) == (x + Bit(b)) % MAX
  {
  }

  /** A wrapped difference is the difference exactly when that is not negative. */
  lemma SubExact(x: nat, y: nat)
    requires x < MAX && y < MAX
    ensures Sub64(x, y) == x - y <==> y <= x
  {
  }

  lemma SumExact(x: nat, y: nat)
    requires x + y < MAX
    ensures Sum64(x, y) == x + y
  {
  }

  /** The counters after one more cycle, modulo 2^64. */
  function Counted64(c: Counts, active: bool, e: Event): Counts {
    var c1 := c.(cyclesAll := Add64(c.cyclesAll, true), retAll := Add64(c.retAll, e.retInst));
    if !active then c1
    else c1.(cycles := Add64(c.cycles, true), retInst := Add64(c.retInst, e.retInst), badSpec := Add64(c.badSpec, e.badSpec),
             stallBe := Add64(c.stallBe, e.stallBe), stallL1d := Add64(c.stallL1d, e.stallL1d),
             stallL1dR := Add64(c.stallL1dR, e.stallL1dR), stallLoadUse := Add64(c.stallLoadUse, e.stallLoadUse),
             stallMulSimdUse := Add64(c.stallMulSimdUse, e.stallMulSimdUse), stallDiv := Add64(c.stallDiv, e.stallDiv),
             stallFe := Add64(c.stallFe, e.stallFe), stallL1i := Add64(c.stallL1i, e.stallL1i))
  }

  lemma CountedWraps(t: Counts, active: bool, e: Event)
    ensures Counted64(Wrapped(t), active, e) == Wrapped(Counted(t, active, e))
  {
    hide Add64;
    Add64Wraps(t.cyclesAll, true);
    Add64Wraps(t.retAll, e.retInst);
    Add64Wraps(t.cycles, true);
    Add64Wraps(t.retInst, e.retInst);
    Add64Wraps(t.badSpec, e.badSpec);
    Add64Wraps(t.stallBe, e.stallBe);
    Add64Wraps(t.stallL1d, e.stallL1d);
    Add64Wraps(t.stallL1dR, e.stallL1dR);
    Add64Wraps(t.stallLoadUse, e.stallLoadUse);
    Add64Wraps(t.stallMulSimdUse, e.stallMulSimdUse);
    Add64Wraps(t.stallDiv, e.stallDiv);
    Add64Wraps(t.stallFe, e.stallFe);
    Add64Wraps(t.stallL1i, e.stallL1i);
  }

  /** The counters of the statistics class, each accumulated modulo 2^64. */
  class CoreStats {
    var c: Counts
    var units: seq<nat>
    var profActive: bool
    var empty: nat
    var stalls: nat
    var lost: nat
    var lostOther: nat
    var stallFeCore: nat
    var stallBeCore: nat
    var retInt: nat
    var ipc: real
    var cpi: real
    ghost var run: seq<Cycle>

    /** The counters agree with the run seen so far, modulo their width. */
    ghost predicate Valid()
      reads this
    {
      c == Wrapped(Tally(run)) && units == UnitsWrapped(run)
    }

    constructor ()
      ensures Valid() && run == [] && !profActive && c == ZERO && ipc == cpi == -1.0
    {
      c, units, profActive, run := ZERO, seq(UNITS, _ => 0), false, [];
      empty, stalls, lost, lostOther, stallFeCore, stallBeCore, retInt := 0, 0, 0, 0, 0, 0, 0;
      ipc, cpi := -1.0, -1.0;
    }

    method Profiling(enable: bool)
      requires Valid()
      modifies this`profActive
      ensures profActive == enable
    {
      profActive := enable;
    }

    /** One cycle's events, as the chain produced them. */
    method AddEvents(retired: bool, tags: Tags, flags: Flags)
      requires Valid()
      modifies this`c, this`units, this`run
      ensures Valid() && run == old(run) + [Cycle(profActive, retired, tags, flags)]
    {
      hide Chain, Add64, Wrapped, Counted, UnitsWrapped;
      UnitsWrap(run, Cycle(profActive, retired, tags, flags));
      var ev := Chain(retired, tags);
      CountedWraps(Tally(run), profActive, ev);
      var t := c;
      t := t.(cyclesAll := Add64(t.cyclesAll, true), retAll := Add64(t.retAll, ev.retInst));
      if profActive {
        t := t.(cycles := Add64(t.cycles, true), retInst := Add64(t.retInst, ev.retInst), badSpec := Add64(t.badSpec, ev.badSpec),
                stallBe := Add64(t.stallBe, ev.stallBe), stallL1d := Add64(t.stallL1d, ev.stallL1d),
                stallL1dR := Add64(t.stallL1dR, ev.stallL1dR), stallLoadUse := Add64(t.stallLoadUse, ev.stallLoadUse),
                stallMulSimdUse := Add64(t.stallMulSimdUse, ev.stallMulSimdUse), stallDiv := Add64(t.stallDiv, ev.stallDiv),
                stallFe := Add64(t.stallFe, ev.stallFe), stallL1i := Add64(t.stallL1i, ev.stallL1i));
        var was := units;
        units := seq(UNITS, k requires 0 <= k < UNITS => Add64(was[k], flags[k]));
      }
      c := t;
      run := run + [Cycle(profActive, retired, tags, flags)];
      assert run[..|run| - 1] == old(run);
    }

    /** Derived counters. In any run shorter than 2^64 cycles no subtraction underflows, the cycles are
        fully accounted for, and what is left over is the number of unexplained cycles; the remainder of
        retired instructions is right exactly when no more packed ones than retired ones were reported. */
    method Summarize()
      requires Valid()
      modifies this`empty, this`stalls, this`lost, this`lostOther, this`stallFeCore, this`stallBeCore, this`retInt, this`ipc, this`cpi
      ensures |run| < MAX ==>
        && c == Tally(run)
        && empty == c.cycles - c.retInst && stalls == c.stallBe + c.stallFe
        && lost == c.cycles - c.retInst - stalls && lostOther == Unexplained(run)
        && stallFeCore == c.stallFe - c.stallL1i && stallBeCore == c.stallBe - c.stallL1d
        && c.cycles == c.retInst + c.badSpec + c.stallBe + c.stallFe + lostOther
      ensures |run| < MAX ==>
        && (forall k :: 0 <= k < UNITS ==> units[k] == UnitTally(run, k))
        && (retInt == c.retInst - UnitTally(run, RET_SIMD) <==> UnitTally(run, RET_SIMD) <= c.retInst)
      ensures if c.cycles > 0 && c.retInst > 0
              then ipc * c.cycles as real == c.retInst as real && cpi * c.retInst as real == c.cycles as real
              else ipc == old(ipc) && cpi == old(cpi)
    {
      hide Tally, Unexplained, Wrapped, UnitsWrapped, UnitTally;
      CycleClasses();
      RetiredInt();
      Ratios();
    }

    /** Cycles by class and by cause. */
    method CycleClasses()
      requires Valid()
      modifies this`empty, this`stalls, this`lost, this`lostOther, this`stallFeCore, this`stallBeCore
      ensures |run| < MAX ==>
        && c == Tally(run)
        && empty == c.cycles - c.retInst && stalls == c.stallBe + c.stallFe
        && lost == c.cycles - c.retInst - stalls && lostOther == Unexplained(run)
        && stallFeCore == c.stallFe - c.stallL1i && stallBeCore == c.stallBe - c.stallL1d
        && c.cycles == c.retInst + c.badSpec + c.stallBe + c.stallFe + lostOther
    {
      hide Tally, Unexplained, Sub64, Sum64, Wrapped, UnitsWrapped;
      empty := Sub64(c.cycles, c.retInst);
      stalls := Sum64(c.stallBe, c.stallFe);
      lost := Sub64(empty, stalls);
      lostOther := Sub64(lost, c.badSpec);
      stallFeCore := Sub64(c.stallFe, c.stallL1i);
      stallBeCore := Sub64(c.stallBe, c.stallL1d);
      if |run| < MAX {
        ExactWhenShort(run);
        Derived(run, c);
      }
    }

    /** Retired instructions that are not packed ones. */
    method RetiredInt()
      requires Valid()
      modifies this`retInt
      ensures |run| < MAX ==>
        && (forall k :: 0 <= k < UNITS ==> units[k] == UnitTally(run, k))
        && (retInt == c.retInst - UnitTally(run, RET_SIMD) <==> UnitTally(run, RET_SIMD) <= c.retInst)
    {
      hide Tally, Sub64, Wrapped, UnitsWrapped;
      UnitsLength(run);
      retInt := Sub64(c.retInst, units[RET_SIMD]);
      if |run| < MAX {
        ExactWhenShort(run);
        UnitsExact(run);
        ShortRetired(run);
        SubExact(c.retInst, units[RET_SIMD]);
      }
    }

    /** Instructions per cycle and its inverse, once there is something to divide. */
    method Ratios()
      modifies this`ipc, this`cpi
      ensures if c.cycles > 0 && c.retInst > 0
              then ipc * c.cycles as real == c.retInst as real && cpi * c.retInst as real == c.cycles as real
              else ipc == old(ipc) && cpi == old(cpi)
    {
      if c.cycles > 0 && c.retInst > 0 {
        ipc := c.retInst as real / c.cycles as real;
        Inverse(c.retInst as real, c.cycles as real);
        cpi := 1.0 / ipc;
      }
    }
  }

  lemma ShortRetired(run: seq<Cycle>)
    requires |run| < MAX
    ensures Tally(run).retInst < MAX && UnitTally(run, RET_SIMD) < MAX
  {
    hide Tally, UnitTally;
    Conserved(run);
  }

  function UnitsWrapped(run: seq<Cycle>): seq<nat> {
    seq(UNITS, k requires 0 <= k < UNITS => UnitTally(run, k) % MAX)
  }

  lemma UnitsLength(run: seq<Cycle>)
    ensures |UnitsWrapped(run)| == UNITS
  {
  }

  lemma UnitsExact(run: seq<Cycle>)
    requires |run| < MAX
    ensures |UnitsWrapped(run)| == UNITS && forall k :: 0 <= k < UNITS ==> UnitsWrapped(run)[k] == UnitTally(run, k)
  {
    hide UnitTally;
    assert forall k :: 0 <= k < UNITS ==> UnitTally(run, k) < MAX;
  }

  lemma UnitsWrap(run: seq<Cycle>, x: Cycle)
    ensures |UnitsWrapped(run)| == UNITS
    ensures UnitsWrapped(run + [x])
         == if x.active then seq(UNITS, k requires 0 <= k < UNITS => Add64(UnitsWrapped(run)[k], x.flags[k])) else UnitsWrapped(run)
  {
    hide Add64;
    assert (run + [x])[..|run + [x]| - 1] == run;
    forall k | 0 <= k < UNITS
      ensures UnitTally(run + [x], k) == UnitTally(run, k) + Bit(x.active && x.flags[k])
      ensures Add64(UnitTally(run, k) % MAX, x.flags[k]) == (UnitTally(run, k) + Bit(x.flags[k])) % MAX
    {
      Add64Wraps(UnitTally(run, k), x.flags[k]);
    }
  }

  lemma Inverse(x: real, y: real)
    requires x > 0.0 && y > 0.0
    ensures (x / y) * y == x && x / y > 0.0 && (1.0 / (x / y)) * x == y
  {
    var q := x / y;
    assert q * y == x;
    var r := 1.0 / q;
    assert r * q == 1.0;
    assert r * x == r * (q * y) == (r * q) * y;
  }

  /** No derivation underflows. */
  lemma Derived(run: seq<Cycle>, c: Counts)
    requires |run| < MAX && c == Tally(run)
    ensures var empty, stalls := Sub64(c.cycles, c.retInst), Sum64(c.stallBe, c.stallFe);
      var lost := Sub64(empty, stalls);
      && empty == c.cycles - c.retInst && stalls == c.stallBe + c.stallFe && lost == c.cycles - c.retInst - stalls
      && Sub64(lost, c.badSpec) == Unexplained(run)
      && Sub64(c.stallFe, c.stallL1i) == c.stallFe - c.stallL1i && Sub64(c.stallBe, c.stallL1d) == c.stallBe - c.stallL1d
      && c.cycles == c.retInst + c.badSpec + c.stallBe + c.stallFe + Unexplained(run)
  {
    hide Tally, Unexplained, Sub64, Sum64;
    Conserved(run);
    Remainder(run);
    SubExact(c.cycles, c.retInst);
    SumExact(c.stallBe, c.stallFe);
    SubExact(c.cycles - c.retInst, c.stallBe + c.stallFe);
    SubExact(c.cycles - c.retInst - (c.stallBe + c.stallFe), c.badSpec);
    SubExact(c.stallFe, c.stallL1i);
    SubExact(c.stallBe, c.stallL1d);
  }

  function Wrapped(t: Counts): Counts {
    Counts(t.cyclesAll % MAX, t.retAll % MAX, t.cycles % MAX, t.retInst % MAX, t.badSpec % MAX, t.stallBe % MAX,
           t.stallL1d % MAX, t.stallL1dR % MAX, t.stallLoadUse % MAX, t.stallMulSimdUse % MAX, t.stallDiv % MAX,
           t.stallFe % MAX, t.stallL1i % MAX)
  }

  lemma {:induction false} CausesBounded(run: seq<Cycle>)
    ensures var c := Tally(run);
      c.stallL1dR <= |run| && c.stallLoadUse <= |run| && c.stallMulSimdUse <= |run| && c.stallDiv <= |run|
  {
    if run != [] {
      CausesBounded(run[..|run| - 1]);
    }
  }

  /** Counters of a run shorter than 2^64 cycles have not wrapped. */
  lemma ExactWhenShort(run: seq<Cycle>)
    requires |run| < MAX
    ensures Wrapped(Tally(run)) == Tally(run)
  {
    hide Tally;
    Conserved(run);
    CausesBounded(run);
    SmallWrapped(Tally(run));
  }

  lemma SmallWrapped(c: Counts)
    requires c.cyclesAll < MAX && c.retAll < MAX && c.cycles < MAX && c.retInst < MAX && c.badSpec < MAX && c.stallBe < MAX
    requires c.stallL1d < MAX && c.stallL1dR < MAX && c.stallLoadUse < MAX && c.stallMulSimdUse < MAX && c.stallDiv < MAX
    requires c.stallFe < MAX && c.stallL1i < MAX
    ensures Wrapped(c) == c
  {
    assert forall x: nat {:trigger x % MAX} :: x < MAX ==> x % MAX == x;
  }
}
