/** The register file in its two layouts: one flat array, and an even and an odd bank that take a pair
    write in one cycle. */
module RegFileModel {
  const REGS: nat := 32
  const BANK: nat := 16

  type Reg = r: nat | r < 32
  type Word = nat

  /** The register paired with rd. */
  function Pair(rd: Reg): Reg { (rd + 1) % 32 }

  datatype Write = Write(we: bool, rdp: bool, rd: Reg, d: Word, dp: Word)

  /** Write of the flat layout: the pair is written only together with rd. */
  function FlatWrite(rf: seq<Word>, w: Write): (r: seq<Word>)
    requires |rf| == REGS
    ensures |r| == REGS
  {
    if w.we && w.rd != 0 then
      var rf1 := rf[w.rd := w.d];
      if w.rdp && Pair(w.rd) != 0 then rf1[Pair(w.rd) := w.dp] else rf1
    else rf
  }

  /** Read port: x0 reads as zero. */
  function ReadRf(rf: seq<Word>, rs: Reg): Word
    requires |rf| == REGS
  {
    if rs == 0 then 0 else rf[rs]
  }

  datatype Banks = Banks(even: seq<Word>, odd: seq<Word>) {
    predicate Valid() { |even| == BANK && |odd| == BANK }
  }

  predicate PairWrite(w: Write) { w.rdp && w.rd != 0 && w.rd != 31 }

  /** Index of rd, and of its pair: an odd rd has its pair at the next even index. */
  function Index(rd: Reg): (i: nat) ensures i < BANK { rd / 2 }
  function PairIndex(rd: Reg): (i: nat) ensures i < BANK { (rd / 2 + rd % 2) % 16 }

  function EvenWrite(even: seq<Word>, w: Write): (r: seq<Word>)
    requires |even| == BANK
    ensures |r| == BANK
  {
    if PairWrite(w) then
      (if w.rd % 2 == 0 then even[Index(w.rd) := w.d] else even[PairIndex(w.rd) := w.dp])
    else if w.we && w.rd != 0 && w.rd % 2 == 0 then even[Index(w.rd) := w.d]
    else even
  }
  function OddWrite(odd: seq<Word>, w: Write): (r: seq<Word>)
    requires |odd| == BANK
    ensures |r| == BANK
  {
    if PairWrite(w) then odd[Index(w.rd) := if w.rd % 2 == 0 then w.dp else w.d]
    else if w.we && w.rd != 0 && w.rd % 2 == 1 then odd[Index(w.rd) := w.d]
    else odd
  }
  function BankedWrite(b: Banks, w: Write): (r: Banks)
    requires b.Valid()
    ensures r.Valid()
  {
    Banks(EvenWrite(b.even, w), OddWrite(b.odd, w))
  }

  function BankedRead(b: Banks, rs: Reg): Word
    requires b.Valid()
  {
    if rs == 0 then 0 else if rs % 2 == 0 then b.even[Index(rs)] else b.odd[Index(rs)]
  }

  // ---------------------------------------------------------------------------------------

  /** All read ports agree on all addresses. */
  ghost predicate Agree(b: Banks, rf: seq<Word>) {
    b.Valid() && |rf| == REGS && forall rs: Reg :: BankedRead(b, rs) == ReadRf(rf, rs)
  }

  /** A pair write without the write of rd itself, which the flat file ignores and the banked one does. */
  predicate Orphan(w: Write) { PairWrite(w) && !w.we }

  /** A write that is no orphan pair write keeps the layouts in step. */
  lemma CoupledAgrees(b: Banks, rf: seq<Word>, w: Write)
    requires Agree(b, rf) && !Orphan(w)
    ensures Agree(BankedWrite(b, w), FlatWrite(rf, w))
  {
    var b', rf' := BankedWrite(b, w), FlatWrite(rf, w);
    forall rs: Reg
      ensures BankedRead(b', rs) == ReadRf(rf', rs)
    {
      assert BankedRead(b, rs) == ReadRf(rf, rs);
      if rs != 0 && rs != w.rd && rs != Pair(w.rd) {
        OthersKept(b, w, rs);
      }
    }
  }

  /** An orphan pair write: the banked file takes it, the flat one does not. */
  lemma OrphanWrite(b: Banks, rf: seq<Word>, w: Write)
    requires Agree(b, rf) && Orphan(w)
    ensures var b' := BankedWrite(b, w);
      && FlatWrite(rf, w) == rf && BankedRead(b', w.rd) == w.d && BankedRead(b', Pair(w.rd)) == w.dp
  {
    PairPlace(w.rd);
    hide Pair, Index, PairIndex;
  }

  /** The pair of an even register has the same index in the other bank, that of an odd one the next. */
  lemma PairPlace(rd: Reg)
    requires rd != 31
    ensures Pair(rd) == rd + 1 && (rd + 1) % 2 != rd % 2
    ensures Index(rd + 1) == if rd % 2 == 0 then Index(rd) else PairIndex(rd)
  {
  }

  /** One write keeps the layouts in step exactly when it is not an orphan pair write, or happens to
      write back what both registers already hold. */
  lemma WriteAgrees(b: Banks, rf: seq<Word>, w: Write)
    requires Agree(b, rf)
    ensures Agree(BankedWrite(b, w), FlatWrite(rf, w))
       <==> (Orphan(w) ==> w.d == ReadRf(rf, w.rd) && w.dp == ReadRf(rf, Pair(w.rd)))
  {
    if Orphan(w) {
      OrphanWrite(b, rf, w);
      hide BankedWrite, FlatWrite, BankedRead, ReadRf;
      var b' := BankedWrite(b, w);
      forall rs: Reg | rs != w.rd && rs != Pair(w.rd)
        ensures BankedRead(b', rs) == ReadRf(rf, rs)
      {
        OthersKept(b, w, rs);
      }
    } else {
      CoupledAgrees(b, rf, w);
    }
  }

  /** An orphan pair write of x2 and x3: the banked file takes both values, the flat one neither. */
  lemma OrphanDiverges()
    ensures var zeros := seq(BANK, _ => 0);
      var b, rf, w := Banks(zeros, zeros), seq(REGS, _ => 0), Write(false, true, 2, 7, 9);
      && Orphan(w) && Agree(b, rf) && !Agree(BankedWrite(b, w), FlatWrite(rf, w))
      && BankedRead(BankedWrite(b, w), 2) == 7 && ReadRf(FlatWrite(rf, w), 2) == 0
      && BankedRead(BankedWrite(b, w), 3) == 9 && ReadRf(FlatWrite(rf, w), 3) == 0
  {
    var zeros := seq(BANK, _ => 0);
    var b, rf := Banks(zeros, zeros), seq(REGS, _ => 0);
    forall rs: Reg
      ensures BankedRead(b, rs) == ReadRf(rf, rs)
    {
    }
    WriteAgrees(b, rf, Write(false, true, 2, 7, 9));
  }

  lemma OthersKept(b: Banks, w: Write, rs: Reg)
    requires b.Valid() && rs != w.rd && rs != Pair(w.rd)
    ensures BankedRead(BankedWrite(b, w), rs) == BankedRead(b, rs)
  {
  }

  /** Files after a sequence of writes. */
  function FlatWrites(rf: seq<Word>, ws: seq<Write>): (r: seq<Word>)
    requires |rf| == REGS
    ensures |r| == REGS
    decreases |ws|
  {
    if ws == [] then rf else FlatWrites(FlatWrite(rf, ws[0]), ws[1..])
  }
  function BankedWrites(b: Banks, ws: seq<Write>): (r: Banks)
    requires b.Valid()
    ensures r.Valid()
    decreases |ws|
  {
    if ws == [] then b else BankedWrites(BankedWrite(b, ws[0]), ws[1..])
  }

  // What a write leaves in a register.
  predicate WritesRd(w: Write, r: Reg) { w.we && r != 0 && r == w.rd }
  predicate WritesPair(w: Write, r: Reg) { w.we && w.rdp && w.rd != 0 && r != 0 && r == Pair(w.rd) }

  /** The value of the last write to a register, or what it held at first; x0 is zero. */
  function LastWritten(rf: seq<Word>, ws: seq<Write>, r: Reg): Word
    requires |rf| == REGS
  {
    if ws == [] then ReadRf(rf, r)
    else
      var w := ws[|ws| - 1];
      if WritesPair(w, r) then w.dp else if WritesRd(w, r) then w.d else LastWritten(rf, ws[..|ws| - 1], r)
  }

  lemma {:induction false} WritesSnoc(rf: seq<Word>, ws: seq<Write>)
    requires |rf| == REGS && ws != []
    ensures FlatWrites(rf, ws) == FlatWrite(FlatWrites(rf, ws[..|ws| - 1]), ws[|ws| - 1])
    decreases |ws|
  {
    hide FlatWrite;
    if |ws| > 1 {
      WritesSnoc(FlatWrite(rf, ws[0]), ws[1..]);
      assert ws[1..][..|ws[1..]| - 1] == ws[..|ws| - 1][1..];
    }
  }

  /** After any sequence of writes every register reads as the last write to it, alone or as a pair. */
  lemma {:induction false} ReadsLastWrite(rf: seq<Word>, ws: seq<Write>, r: Reg)
    requires |rf| == REGS
    ensures ReadRf(FlatWrites(rf, ws), r) == LastWritten(rf, ws, r)
    decreases |ws|
  {
    if ws != [] {
      hide FlatWrites;
      WritesSnoc(rf, ws);
      ReadsLastWrite(rf, ws[..|ws| - 1], r);
    }
  }

  /** For every sequence of writes in which a pair write implies the write of rd, the banked file reads
      as the flat one, through all ports: odd rd, x0 and x31 included. */
  lemma {:induction false} BankedRefinesFlat(b: Banks, rf: seq<Word>, ws: seq<Write>)
    requires Agree(b, rf) && forall k :: 0 <= k < |ws| ==> ws[k].rdp ==> ws[k].we
    ensures Agree(BankedWrites(b, ws), FlatWrites(rf, ws))
    decreases |ws|
  {
    hide BankedWrite, FlatWrite, Agree;
    AgreeValid(b, rf);
    if ws != [] {
      WriteAgrees(b, rf, ws[0]);
      BankedRefinesFlat(BankedWrite(b, ws[0]), FlatWrite(rf, ws[0]), ws[1..]);
    }
  }

  lemma AgreeValid(b: Banks, rf: seq<Word>)
    requires Agree(b, rf)
    ensures b.Valid() && |rf| == REGS
  {
  }

  // ---------------------------------------------------------------------------------------
  // Arrays written in place

  class FlatFile {
    const rf: array<Word>

    ghost predicate Valid()
      reads this, rf
    {
      rf.Length == REGS
    }

    constructor ()
      ensures Valid() && fresh(rf)
    {
      rf := new Word[REGS];
    }

    method Clock(w: Write)
      requires Valid()
      modifies rf
      ensures rf[..] == FlatWrite(old(rf[..]), w)
    {
      if w.we && w.rd != 0 {
        rf[w.rd] := w.d;
        if w.rdp && Pair(w.rd) != 0 {
          rf[Pair(w.rd)] := w.dp;
        }
      }
    }

    method Read(rs: Reg) returns (v: Word)
      requires Valid()
      ensures v == ReadRf(rf[..], rs)
    {
      v := if rs == 0 then 0 else rf[rs];
    }
  }

  class BankedFile {
    const even: array<Word>
    const odd: array<Word>

    ghost predicate Valid()
      reads this, even, odd
    {
      even.Length == BANK && odd.Length == BANK && even != odd
    }

    ghost function View(): (b: Banks)
      requires Valid()
      reads this, even, odd
      ensures b.Valid()
    {
      Banks(even[..], odd[..])
    }

    constructor ()
      ensures Valid() && fresh(even) && fresh(odd)
    {
      even := new Word[BANK];
      odd := new Word[BANK];
    }

    method ClockEven(w: Write)
      requires Valid()
      modifies even
      ensures even[..] == EvenWrite(old(even[..]), w)
    {
      if w.rdp && w.rd != 0 && w.rd != 31 {
        if w.rd % 2 == 0 {
          even[Index(w.rd)] := w.d;
        } else {
          even[PairIndex(w.rd)] := w.dp;
        }
      } else if w.we && w.rd != 0 && w.rd % 2 == 0 {
        even[Index(w.rd)] := w.d;
      }
    }

    method ClockOdd(w: Write)
      requires Valid()
      modifies odd
      ensures odd[..] == OddWrite(old(odd[..]), w)
    {
      if w.rdp && w.rd != 0 && w.rd != 31 {
        odd[Index(w.rd)] := if w.rd % 2 == 0 then w.dp else w.d;
      } else if w.we && w.rd != 0 && w.rd % 2 == 1 {
        odd[Index(w.rd)] := w.d;
      }
    }

    method Clock(w: Write)
      requires Valid()
      modifies even, odd
      ensures View() == BankedWrite(old(View()), w)
    {
      ClockEven(w);
      ClockOdd(w);
    }

    method Read(rs: Reg) returns (v: Word)
      requires Valid()
      ensures v == BankedRead(View(), rs)
    {
      if rs == 0 {
        v := 0;
      } else if rs % 2 == 0 {
        v := even[Index(rs)];
      } else {
        v := odd[Index(rs)];
      }
    }
  }
}
