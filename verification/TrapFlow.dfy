/** The course of a trap from its inputs: when one is recognised, parked, cancelled, entered and left, what
    an entry records, and what a csr instruction reads and leaves. */
module TrapFlow {
  import opened Options
  import opened TrapModel
  import opened TrapProof

  // ---------------------------------------------------------------------------------------
  // Sources

  predicate External(u: Unit, i: In) { i.meip && Set(u.c.mie, MEI) }
  predicate Timer(u: Unit, i: In) { i.mtip && Set(u.c.mie, MTI) }

  /** An individually enabled interrupt is pending and nothing is speculative. */
  predicate Wakes(u: Unit, i: In) { (External(u, i) || Timer(u, i)) && !i.specActive }

  /** An interrupt is to be taken. */
  predicate Interrupt(u: Unit, i: In) { Wakes(u, i) && Set(u.c.mstatus, MIE_BIT) }

  /** A trap is recognised at an advancing instruction, or at a parked wfi. */
  predicate AtDecode(u: Unit, i: In) {
    u.t.fsm.Idle? && i.decValid && i.decEn && !i.wfiDec && (i.xcpt || Interrupt(u, i))
  }
  predicate AtWfi(u: Unit, i: In) { u.t.fsm.Wfi? && !i.specWrong && Interrupt(u, i) }

  /** The enable bits: MEIE is bit 11 and MTIE bit 7 of mie, MIE is bit 3 and MPIE bit 7 of mstatus. */
  lemma BitPositions(m: Word)
    ensures Set(m, MEI) == (m & 0x800 != 0) && Set(m, MTI) == (m & 0x80 != 0)
    ensures Set(m, MIE_BIT) == (m & 0x8 != 0) && Set(m, MPIE_BIT) == (m & 0x80 != 0)
  {
  }

  lemma IrqExact(c: Csrs, i: In)
    ensures ExternalIrq(c, i) <==> i.meip && Set(c.mie, MEI)
    ensures TimerIrq(c, i) <==> i.mtip && Set(c.mie, MTI)
  {
    hide Set;
    MaskSources(c.mie);
  }

  lemma RecognisedExactly(u: Unit, i: In)
    ensures Catches(u, i) <==> AtDecode(u, i)
    ensures WfiLaunches(u, i) <==> AtWfi(u, i)
    ensures IrqEnabled(u.c, i) && !i.specActive <==> Wakes(u, i)
    ensures IrqPend(u.c, i) <==> Interrupt(u, i)
    ensures IrqCause(u.c, i) == if External(u, i) then 0x8000_000B else 0x8000_0007
  {
    hide Set, ExternalIrq, TimerIrq;
    IrqExact(u.c, i);
  }

  // ---------------------------------------------------------------------------------------
  // What an entry records

  /** The cycle of the last recognition, unless it was cancelled or committed. */
  function RecognisedAt(us: seq<Unit>, ins: seq<In>, n: nat): Option<nat>
    requires n <= |ins| && n < |us|
  {
    if n == 0 then None
    else
      var u, i := us[n - 1], ins[n - 1];
      if AtDecode(u, i) || AtWfi(u, i) then Some(n - 1)
      else if (u.t.fsm.TrapPending? && i.specWrong) || Entry(u) then None
      else RecognisedAt(us, ins, n - 1)
  }

  /** Cause, value and address that belong to the recognition in cycle k. */
  ghost predicate Records(us: seq<Unit>, ins: seq<In>, k: nat, cause: Word, tval: Word, pc: Word)
    requires k < |ins| && k < |us|
  {
    var u, i := us[k], ins[k];
    if AtDecode(u, i) && i.xcpt then
      cause == i.xcptCause && tval == (if i.xcptCause == 2 then i.instDec else 0) && pc == i.pcDec
    else
      && cause == (if External(u, i) then 0x8000_000B else 0x8000_0007)
      && (External(u, i) || Timer(u, i)) && tval == 0
      && (if AtDecode(u, i) then pc == i.pcDec else Parked(us, ins, k) == Some(pc))
  }

  lemma RecordsNow(us: seq<Unit>, ins: seq<In>, k: nat)
    requires IsRun(us, ins) && k < |ins| && (AtDecode(us[k], ins[k]) || AtWfi(us[k], ins[k]))
    ensures var t := CtrlNext(us[k], ins[k]).info; Records(us, ins, k, t.cause, t.tval, t.pc)
    ensures FsmNext(us[k], ins[k]).TrapPending?
  {
    hide Set, IrqCause, IrqPend, IrqEnabled, Catches, WfiLaunches, Parked, External, Timer;
    RecognisedExactly(us[k], ins[k]);
    HeldInfo(us, ins, k);
  }

  /** Without a recognition the recorded information stays, and what is pending stays so until it is
      cancelled or committed. */
  lemma NothingNew(u: Unit, i: In)
    requires !AtDecode(u, i) && !AtWfi(u, i)
    ensures CtrlNext(u, i).info == u.t.info
    ensures var f := FsmNext(u, i);
      f.TrapPending? || f.TrapWrite? <==> u.t.fsm.TrapPending? && !i.specWrong
  {
    hide Set, IrqCause, IrqPend, IrqEnabled, Catches, WfiLaunches, External, Timer, Interrupt;
    RecognisedExactly(u, i);
  }

  /** The registers hold what the last recognition will commit. */
  lemma {:induction false} Holds(us: seq<Unit>, ins: seq<In>, n: nat)
    requires IsRun(us, ins) && n < |us|
    ensures RecognisedAt(us, ins, n).Some? <==> us[n].t.fsm.TrapPending? || Entry(us[n])
    ensures RecognisedAt(us, ins, n).Some? ==>
      var k, t := RecognisedAt(us, ins, n).value, us[n].t.info; k < n && Records(us, ins, k, t.cause, t.tval, t.pc)
  {
    hide CtrlNext, CsrsNext, FsmNext, AtDecode, AtWfi, Records;
    if n > 0 {
      Holds(us, ins, n - 1);
      var u, i := us[n - 1], ins[n - 1];
      assert us[n] == Next(u, i);
      assert us[n].t.info == CtrlNext(u, i).info && us[n].t.fsm == FsmNext(u, i) by { FsmIs(u, i); }
      if AtDecode(u, i) || AtWfi(u, i) {
        RecordsNow(us, ins, n - 1);
      } else {
        NothingNew(u, i);
      }
    }
  }

  lemma FsmIs(u: Unit, i: In)
    ensures Next(u, i).t.info == CtrlNext(u, i).info && Next(u, i).t.fsm == FsmNext(u, i)
  {
    hide FsmNext, CsrsNext, Catches, WfiLaunches, CaughtInfo;
  }

  // The legal bits of a word in each register: MIE and MPIE with machine mode as MPP, MTIE and MEIE, a
  // word-aligned address.
  function StatusBits(d: Word): Word { (d & 0x88) | 0x1800 }
  function EnableBits(d: Word): Word { d & 0x880 }
  function AddressBits(d: Word): Word { d & 0xFFFF_FFFC }

  lemma LegalStatusIs(d: Word)
    ensures LegalMstatus(d) == StatusBits(d)
  {
  }
  lemma LegalMieIs(d: Word)
    ensures LegalMie(d) == EnableBits(d)
  {
  }
  lemma LegalPcIs(d: Word)
    ensures LegalPc(d) == AddressBits(d)
  {
  }

  lemma LegalIs(d: Word)
    ensures LegalMstatus(d) == StatusBits(d) && LegalMie(d) == EnableBits(d) && LegalPc(d) == AddressBits(d)
  {
    hide LegalMstatus, LegalMie, LegalPc, StatusBits, EnableBits, AddressBits;
    LegalStatusIs(d);
    LegalMieIs(d);
    LegalPcIs(d);
  }

  /** Each entry of every run writes cause, value and word-aligned address of the last recognition that was
      neither cancelled nor committed; an interrupt's cause names its source, the external one first. */
  lemma EntryRecords(us: seq<Unit>, ins: seq<In>, n: nat) returns (k: nat, pc: Word)
    requires IsRun(us, ins) && n < |ins| && Entry(us[n])
    ensures k < n && RecognisedAt(us, ins, n) == Some(k)
    ensures Records(us, ins, k, us[n + 1].c.mcause, us[n + 1].c.mtval, pc) && us[n + 1].c.mepc == AddressBits(pc)
  {
    hide Records, RecognisedAt, Next, LegalPc, AddressBits;
    Holds(us, ins, n);
    HeldInfo(us, ins, n);
    EntryCommits(us, ins, n);
    k, pc := RecognisedAt(us, ins, n).value, us[n].t.info.pc;
    LegalPcIs(pc);
  }

  // ---------------------------------------------------------------------------------------
  // The course of a trap

  lemma Follows(us: seq<Unit>, ins: seq<In>, k: nat)
    requires IsRun(us, ins) && k < |ins|
    ensures us[k + 1].t.fsm == FsmNext(us[k], ins[k])
  {
    hide FsmNext, CsrsNext;
    FsmIs(us[k], ins[k]);
    assert us[k + 1] == Next(us[k], ins[k]);
  }

  /** One edge of the controller, by its inputs. */
  lemma EdgeExactly(u: Unit, i: In)
    ensures var f := FsmNext(u, i);
      && (u.t.fsm.Idle? ==> f == if AtDecode(u, i) then TrapPending else if i.decValid && i.decEn && i.wfiDec then Wfi else Idle)
      && (u.t.fsm.Wfi? ==> f == if i.specWrong then Idle else if Interrupt(u, i) then TrapPending else if Wakes(u, i) then Idle else Wfi)
      && (u.t.fsm.TrapPending? ==> f == if i.specWrong then Idle else if i.tagTrapped then TrapWrite else TrapPending)
      && (u.t.fsm.TrapWrite? ==> f == Trapped)
      && (u.t.fsm.Trapped? ==> f == if i.mretDec && i.decEn then RestorePending else Trapped)
      && (u.t.fsm.RestorePending? ==> f == if i.tagMret then RestoreWrite else RestorePending)
      && (u.t.fsm.RestoreWrite? ==> f == Idle)
  {
    hide Set, IrqCause, IrqPend, IrqEnabled, Catches, External, Timer, Interrupt, Wakes;
    RecognisedExactly(u, i);
  }

  /** A recognised trap is pending until its tag arrives or it is cancelled. */
  lemma {:induction false} StaysPending(us: seq<Unit>, ins: seq<In>, k: nat, t: nat)
    requires IsRun(us, ins) && k < t <= |ins| && (AtDecode(us[k], ins[k]) || AtWfi(us[k], ins[k]))
    requires forall j :: k < j < t ==> !ins[j].specWrong && !ins[j].tagTrapped
    ensures us[t].t.fsm.TrapPending?
    decreases t
  {
    hide Next, FsmNext, Interrupt;
    Follows(us, ins, t - 1);
    EdgeExactly(us[t - 1], ins[t - 1]);
    if t > k + 1 {
      StaysPending(us, ins, k, t - 1);
    }
  }

  /** Every recognised trap whose tag arrives before a cancellation is entered in the next cycle, records what
      was recognised and runs the handler; a cancelled one leaves the controller idle. */
  lemma TrapTaken(us: seq<Unit>, ins: seq<In>, k: nat, t: nat) returns (pc: Word)
    requires IsRun(us, ins) && k < t && t + 1 < |ins| && (AtDecode(us[k], ins[k]) || AtWfi(us[k], ins[k]))
    requires forall j :: k < j < t ==> !ins[j].specWrong && !ins[j].tagTrapped
    requires ins[t].specWrong || ins[t].tagTrapped
    ensures ins[t].specWrong ==> us[t + 1].t.fsm.Idle?
    ensures !ins[t].specWrong ==>
      && Entry(us[t + 1]) && us[t + 2].t.fsm.Trapped?
      && Records(us, ins, k, us[t + 2].c.mcause, us[t + 2].c.mtval, pc) && us[t + 2].c.mepc == AddressBits(pc)
  {
    hide Next, FsmNext, Interrupt, Records, AddressBits;
    StaysPending(us, ins, k, t);
    Follows(us, ins, t);
    EdgeExactly(us[t], ins[t]);
    pc := 0;
    if !ins[t].specWrong {
      Follows(us, ins, t + 1);
      EdgeExactly(us[t + 1], ins[t + 1]);
      var k';
      k', pc := EntryRecords(us, ins, t + 1);
      OneRecognition(us, ins, k, t + 1);
    }
  }

  lemma {:induction false} OneRecognition(us: seq<Unit>, ins: seq<In>, k: nat, t: nat)
    requires IsRun(us, ins) && k < t <= |ins| && (AtDecode(us[k], ins[k]) || AtWfi(us[k], ins[k]))
    requires forall j :: k < j < t ==> !ins[j].specWrong && (j < t - 1 ==> !ins[j].tagTrapped)
    ensures RecognisedAt(us, ins, t) == Some(k)
    decreases t
  {
    if t > k + 1 {
      OneRecognition(us, ins, k, t - 1);
      StaysPending(us, ins, k, t - 1);
    }
  }

  /** A wfi parks until it is cancelled or an enabled interrupt wakes it: into a trap if interrupts are
      enabled globally, else on to the next instruction. */
  lemma {:induction false} WfiParks(us: seq<Unit>, ins: seq<In>, k: nat, t: nat)
    requires IsRun(us, ins) && k < t < |ins| && us[k].t.fsm.Idle? && ins[k].decValid && ins[k].decEn && ins[k].wfiDec
    requires forall j :: k < j < t ==> !ins[j].specWrong && !Wakes(us[j], ins[j])
    ensures us[t].t.fsm.Wfi? && Parked(us, ins, t) == Some(ins[k].pcInc4)
    ensures us[t + 1].t.fsm == if ins[t].specWrong then Idle else if Interrupt(us[t], ins[t]) then TrapPending
                               else if Wakes(us[t], ins[t]) then Idle else Wfi
    decreases t
  {
    hide Next, FsmNext, Wakes, Interrupt, Set;
    if t > k + 1 {
      WfiParks(us, ins, k, t - 1);
      NoInterrupt(us[t - 1], ins[t - 1]);
    } else {
      Follows(us, ins, k);
      EdgeExactly(us[k], ins[k]);
    }
    Follows(us, ins, t);
    EdgeExactly(us[t], ins[t]);
  }

  lemma NoInterrupt(u: Unit, i: In)
    requires !Wakes(u, i)
    ensures !Interrupt(u, i)
  {
  }

  /** After an entry the handler runs until its return instruction, and the return is carried out when its
      tag arrives; then the controller is idle. */
  lemma ReturnTaken(us: seq<Unit>, ins: seq<In>, e: nat, m: nat, r: nat)
    requires IsRun(us, ins) && e < m < r && r + 1 < |ins| && Entry(us[e])
    requires forall j :: e < j < m ==> !(ins[j].mretDec && ins[j].decEn)
    requires ins[m].mretDec && ins[m].decEn && ins[r].tagMret && forall j :: m < j < r ==> !ins[j].tagMret
    ensures forall j :: e < j <= r ==> !Entry(us[j]) && !Ret(us[j])
    ensures Ret(us[r + 1]) && us[r + 2].t.fsm.Idle?
  {
    hide Next, FsmNext;
    forall j | e < j <= r
      ensures if j <= m then us[j].t.fsm.Trapped? else us[j].t.fsm.RestorePending?
    {
      InHandlerAt(us, ins, e, m, r, j);
    }
    Follows(us, ins, r);
    EdgeExactly(us[r], ins[r]);
    Follows(us, ins, r + 1);
    EdgeExactly(us[r + 1], ins[r + 1]);
  }

  lemma {:induction false} InHandlerAt(us: seq<Unit>, ins: seq<In>, e: nat, m: nat, r: nat, j: nat)
    requires IsRun(us, ins) && e < m < r < |ins| && Entry(us[e]) && e < j <= r
    requires forall j :: e < j < m ==> !(ins[j].mretDec && ins[j].decEn)
    requires ins[m].mretDec && ins[m].decEn && forall j :: m < j < r ==> !ins[j].tagMret
    ensures if j <= m then us[j].t.fsm.Trapped? else us[j].t.fsm.RestorePending?
    decreases j
  {
    hide Next, FsmNext;
    Follows(us, ins, j - 1);
    EdgeExactly(us[j - 1], ins[j - 1]);
    if j > e + 1 {
      InHandlerAt(us, ins, e, m, r, j - 1);
    }
  }

  // ---------------------------------------------------------------------------------------
  // csr instructions

  /** The set form sets exactly the bits of its source, the clear form clears exactly them. */
  lemma CombinedSets(read: Word, src: Word)
    ensures var d := Combined(OpRs, read, src); d & src == src && d & !src == read & !src
  {
    SetBits(read, src);
  }
  lemma CombinedClears(read: Word, src: Word)
    ensures var d := Combined(OpRc, read, src); d & src == 0 && d & !src == read & !src
  {
    ClearedBits(read, src);
  }

  lemma SetBits(x: Word, y: Word)
    ensures (x | y) & y == y && (x | y) & !y == x & !y
  {
  }
  lemma ClearedBits(x: Word, y: Word)
    ensures (x & !y) & y == 0 && (x & !y) & !y == x & !y
  {
  }

  predicate Writing(i: In, r: Csr) { i.csr.en && i.csr.we && i.csr.addr == r }

  /** What a csr instruction reads: the addressed register, for mip the two lines at bits 11 and 7, and zero
      when disabled. */
  lemma CsrReads(c: Csrs, i: In)
    ensures !(i.csr.re && i.csr.en) ==> ReadCsr(c, i) == 0
    ensures i.csr.re && i.csr.en ==> var r := ReadCsr(c, i);
      match i.csr.addr
      case Mstatus => r == c.mstatus
      case Mie => r == c.mie
      case Mip => r & !0x880 == 0 && (r & 0x800 != 0 <==> i.meip) && (r & 0x80 != 0 <==> i.mtip)
      case Mtvec => r == c.mtvec
      case Mepc => r == c.mepc
      case Mcause => r == c.mcause
      case Mtval => r == c.mtval
      case OtherCsr => r == 0
  {
  }

  lemma WritesIs(i: In, r: Csr)
    requires r != OtherCsr
    ensures Writes(i, r) <==> Writing(i, r)
  {
  }

  /** In a cycle without entry or return a csr instruction leaves its combination of old value and source in
      the register it addresses, cut to the legal bits, and every other register as it was. */
  lemma CsrLeaves(us: seq<Unit>, ins: seq<In>, k: nat)
    requires IsRun(us, ins) && k < |ins| && !Entry(us[k]) && !Ret(us[k])
    ensures var c, c', i := us[k].c, us[k + 1].c, ins[k];
      var d := Combined(i.csr.op, ReadCsr(c, i), i.csr.src);
      && c'.mstatus == (if Writing(i, Mstatus) then StatusBits(d) else c.mstatus)
      && c'.mie == (if Writing(i, Mie) then EnableBits(d) else c.mie)
      && c'.mtvec == (if Writing(i, Mtvec) then AddressBits(d) else c.mtvec)
      && c'.mepc == (if Writing(i, Mepc) then AddressBits(d) else c.mepc)
      && c'.mcause == (if Writing(i, Mcause) then d else c.mcause)
      && c'.mtval == (if Writing(i, Mtval) then d else c.mtval)
  {
    hide ReadCsr, CtrlNext, Stacked, Unstacked, LegalMstatus, LegalMie, LegalPc, StatusBits, EnableBits, AddressBits, Writes, Writing, Combined;
    assert us[k + 1] == Next(us[k], ins[k]);
    AllWritesAre(ins[k]);
    LegalIs(WriteData(us[k].c, ins[k]));
  }

  lemma AllWritesAre(i: In)
    ensures forall r: Csr :: r != OtherCsr ==> (Writes(i, r) <==> Writing(i, r))
  {
    hide Writes, Writing;
    forall r: Csr | r != OtherCsr
      ensures Writes(i, r) <==> Writing(i, r)
    {
      WritesIs(i, r);
    }
  }

  /** An entry or a return leaves the registers it does not fill to the csr instruction of the cycle. */
  lemma PulseLeaves(us: seq<Unit>, ins: seq<In>, k: nat)
    requires IsRun(us, ins) && k < |ins| && (Entry(us[k]) || Ret(us[k]))
    ensures var c, c', i := us[k].c, us[k + 1].c, ins[k];
      var d := Combined(i.csr.op, ReadCsr(c, i), i.csr.src);
      && c'.mie == (if Writing(i, Mie) then EnableBits(d) else c.mie)
      && c'.mtvec == (if Writing(i, Mtvec) then AddressBits(d) else c.mtvec)
      && (Ret(us[k]) ==>
          && c'.mepc == (if Writing(i, Mepc) then AddressBits(d) else c.mepc)
          && c'.mcause == (if Writing(i, Mcause) then d else c.mcause)
          && c'.mtval == (if Writing(i, Mtval) then d else c.mtval))
  {
    hide ReadCsr, CtrlNext, Stacked, Unstacked, LegalMstatus, LegalMie, LegalPc, StatusBits, EnableBits, AddressBits, Writes, Writing, Combined;
    assert us[k + 1] == Next(us[k], ins[k]);
    AllWritesAre(ins[k]);
    LegalIs(WriteData(us[k].c, ins[k]));
  }
}
