/** The two tree levels with their re-alignment shifts add up the tiles exactly: no carry is lost and
    no set bit is shifted out, for every element width. */
module SimdTrees {
  import opened BitSlices
  import opened CarrySave
  import opened BaughWooley
  import opened LaneModel
  import opened SimdModel
  import opened SimdTiles

  /** Element size of an operation. */
  function Size(op: Op): (n: nat)
    ensures Sized(Widths(op), n) && 2 <= n <= 32
  {
    var w := Widths(op);
    if w.b32 then 32 else if w.b16 then 16 else if w.b8 then 8 else if w.b4 then 4 else 2
  }

  /** Number of elements in a word. */
  function Elements(op: Op): nat {
    var w := Widths(op);
    if w.b32 then 1 else if w.b16 then 2 else if w.b8 then 4 else if w.b4 then 8 else 16
  }

  /** How far the output of first-level tree g is still shifted left. */
  function Group(n: nat, g: nat): nat { if n <= 8 then 16 * g else if n == 16 then 32 * (g / 2) else 0 }

  lemma FirstAlignment(w: Ew, n: nat, g: nat, q: nat)
    requires Sized(w, n) && g < 4 && q < 8
    ensures 2 * (n * ((8 * g + q) / n)) == Group(n, g) + Offset(Align1(w), q)
    ensures Group(n, g) + Align1(w).First() + Align1(w).Second() <= WD
  {
    match n
    case 2 =>
    case 4 =>
    case 8 =>
    case 16 =>
    case _ =>
  }

  lemma FinalAlignment(w: Ew, n: nat, g: nat)
    requires Sized(w, n) && g < 4
    ensures Group(n, g) == Offset(Align2(w), 2 * g) == Offset(Align2(w), 2 * g + 1)
    ensures Align2(w).First() + Align2(w).Second() <= WD
  {
  }

  // ---------------------------------------------------------------------------------------
  // Everything fits in 64 bits

  const ONES: nat := 0xFFFF_FFFF

  lemma RowLimit(op: Op, a: nat, b: nat, r: nat)
    requires r < W
    ensures Rows(op, a, b)[r] <= ONES * Pow2(r)
  {
    hide PpRow, Pow2, Ppv;
    var w, uns := Widths(op), IsUnsigned(op);
    PpvRow(w, uns, a, b, r);
    RowFits(w, uns, a, b, r, W);
    PowerValues();
    MulMonotone(PpRow(w, uns, a, b, r, W), ONES, Pow2(r));
  }

  lemma GroupLimit(op: Op, a: nat, b: nat, g: nat)
    requires g < 4
    ensures Sum8(Rows(op, a, b)[8 * g..8 * g + 8]) <= ONES * (255 * Pow2(8 * g))
  {
    hide Rows, Pow2;
    var r, p := 8 * g, Pow2(8 * g);
    Doublings(r);
    RowLimit(op, a, b, r);
    RowLimit(op, a, b, r + 1);
    RowLimit(op, a, b, r + 2);
    RowLimit(op, a, b, r + 3);
    RowLimit(op, a, b, r + 4);
    RowLimit(op, a, b, r + 5);
    RowLimit(op, a, b, r + 6);
    RowLimit(op, a, b, r + 7);
  }

  lemma Doublings(r: nat)
    ensures Pow2(r + 1) == 2 * Pow2(r) && Pow2(r + 2) == 4 * Pow2(r) && Pow2(r + 3) == 8 * Pow2(r)
    ensures Pow2(r + 4) == 16 * Pow2(r) && Pow2(r + 5) == 32 * Pow2(r) && Pow2(r + 6) == 64 * Pow2(r)
    ensures Pow2(r + 7) == 128 * Pow2(r)
  {
    assert Pow2(r + 2) == 2 * Pow2(r + 1);
    assert Pow2(r + 4) == 2 * Pow2(r + 3);
    assert Pow2(r + 6) == 2 * Pow2(r + 5);
  }

  lemma AllRowsFit(op: Op, a: nat, b: nat)
    ensures Sum8(Rows(op, a, b)[0..8]) + Sum8(Rows(op, a, b)[8..16])
          + Sum8(Rows(op, a, b)[16..24]) + Sum8(Rows(op, a, b)[24..32]) < Pow2(WD)
  {
    hide Rows, Pow2, Sum8;
    GroupLimit(op, a, b, 0);
    GroupLimit(op, a, b, 1);
    GroupLimit(op, a, b, 2);
    GroupLimit(op, a, b, 3);
    PowerValues();
  }

  // ---------------------------------------------------------------------------------------
  // First level

  function GroupRows(uns: bool, a: nat, b: nat, n: nat, r: nat): (x: seq<nat>)
    requires n > 0
    ensures |x| == 8
  {
    seq<nat>(8, q requires 0 <= q < 8 => InPlace(uns, a, b, n, r + q))
  }

  lemma NextRow(uns: bool, a: nat, b: nat, n: nat, lo: nat, hi: nat)
    requires n > 0 && lo <= hi
    ensures SumRows(uns, a, b, n, lo, lo) == 0
    ensures SumRows(uns, a, b, n, lo, hi + 1) == SumRows(uns, a, b, n, lo, hi) + InPlace(uns, a, b, n, hi)
  {
    hide InPlace;
  }

  lemma EightRows(uns: bool, a: nat, b: nat, n: nat, r: nat)
    requires n > 0
    ensures SumRows(uns, a, b, n, r, r + 8) == Sum8(GroupRows(uns, a, b, n, r))
  {
    hide InPlace, SumRows;
    NextRow(uns, a, b, n, r, r);
    NextRow(uns, a, b, n, r, r + 1);
    NextRow(uns, a, b, n, r, r + 2);
    NextRow(uns, a, b, n, r, r + 3);
    NextRow(uns, a, b, n, r, r + 4);
    NextRow(uns, a, b, n, r, r + 5);
    NextRow(uns, a, b, n, r, r + 6);
    NextRow(uns, a, b, n, r, r + 7);
  }

  lemma FirstLevel(op: Op, a: nat, b: nat, g: nat)
    requires g < 4
    ensures var n, t := Size(op), FirstTree(op, a, b, g);
      && t.Multiple(Group(n, g))
      && t.Total() == SumRows(IsUnsigned(op), a, b, n, 8 * g, 8 * g + 8) * Pow2(Group(n, g))
      && t.Total() <= Sum8(Rows(op, a, b)[8 * g..8 * g + 8])
  {
    hide Rows, Pow2, Sum8, InPlace, Tree8, Widths, IsUnsigned, Size, Sized, Group, Align1, SumRows, Offset;
    var n, w, uns := Size(op), Widths(op), IsUnsigned(op);
    var e, rows := Group(n, g), Rows(op, a, b)[8 * g..8 * g + 8];
    var xs := GroupRows(uns, a, b, n, 8 * g);
    forall q | 0 <= q < 8
      ensures rows[q] == xs[q] * Pow2(e + Offset(Align1(w), q))
    {
      FirstAlignment(w, n, g, q);
      RowsAligned(op, a, b, 8 * g + q);
    }
    EightRows(uns, a, b, n, 8 * g);
    FirstAlignment(w, n, g, 0);
    GroupFits(op, a, b, g);
    TreeAligned(rows, xs, e, Align1(w), WD);
  }

  lemma RowsAligned(op: Op, a: nat, b: nat, r: nat)
    requires r < W
    ensures Rows(op, a, b)[r] == InPlace(IsUnsigned(op), a, b, Size(op), r) * Pow2(2 * (Size(op) * (r / Size(op))))
  {
    hide Ppv, Pow2, InPlace;
    RowAligned(Widths(op), IsUnsigned(op), a, b, Size(op), r);
  }

  lemma GroupFits(op: Op, a: nat, b: nat, g: nat)
    requires g < 4
    ensures Sum8(Rows(op, a, b)[8 * g..8 * g + 8]) < Pow2(WD)
  {
    hide Rows, Pow2, Sum8;
    AllRowsFit(op, a, b);
  }

  // ---------------------------------------------------------------------------------------
  // Second level

  /** What the EXE/MEM registers hold for an operation. */
  function HeldOf(op: Op, a: nat, b: nat): Held {
    Held(true, op, Align2(Widths(op)), FirstTree(op, a, b, 0), FirstTree(op, a, b, 1), FirstTree(op, a, b, 2),
         FirstTree(op, a, b, 3), CorrOf(op), a, b, Bit(b, W - 1) == 1)
  }

  lemma Unshift(p: Pair, n: nat, e: nat)
    requires p.Multiple(e) && p.Total() == n * Pow2(e)
    ensures p.s == High(p.s, e) * Pow2(e) && p.c == High(p.c, e) * Pow2(e) && High(p.s, e) + High(p.c, e) == n
  {
    hide Low, High, Pow2;
    SlicesAreDivMod(p.s, e);
    SlicesAreDivMod(p.c, e);
    assert (High(p.s, e) + High(p.c, e)) * Pow2(e) == n * Pow2(e);
    Cancel(High(p.s, e) + High(p.c, e), n, Pow2(e));
  }

  /** The tree outputs read as inputs of the final tree: group g is shifted by what it takes back. */
  function Unshifted(op: Op, a: nat, b: nat, g: nat): Pair
    requires g < 4
  {
    var t, e := FirstTree(op, a, b, g), Group(Size(op), g);
    Pair(High(t.s, e), High(t.c, e))
  }

  lemma Regrouped(op: Op, a: nat, b: nat, g: nat)
    requires g < 4
    ensures var t, u, al := FirstTree(op, a, b, g), Unshifted(op, a, b, g), Align2(Widths(op));
      && t.s == u.s * Pow2(0 + Offset(al, 2 * g)) && t.c == u.c * Pow2(0 + Offset(al, 2 * g + 1))
      && u.Total() == SumRows(IsUnsigned(op), a, b, Size(op), 8 * g, 8 * g + 8)
  {
    hide FirstTree, Size, Widths, IsUnsigned, SumRows, Pow2, High, Low, Group, Offset, Align2, Sized;
    FirstLevel(op, a, b, g);
    FinalAlignment(Widths(op), Size(op), g);
    Unshift(FirstTree(op, a, b, g), SumRows(IsUnsigned(op), a, b, Size(op), 8 * g, 8 * g + 8), Group(Size(op), g));
  }

  function UnshiftedInputs(op: Op, a: nat, b: nat): (x: seq<nat>)
    ensures |x| == 8
  {
    var u0, u1, u2, u3 := Unshifted(op, a, b, 0), Unshifted(op, a, b, 1), Unshifted(op, a, b, 2), Unshifted(op, a, b, 3);
    [u0.s, u0.c, u1.s, u1.c, u2.s, u2.c, u3.s, u3.c]
  }

  lemma FinalShifted(op: Op, a: nat, b: nat)
    ensures Shifted(FinalInputs(HeldOf(op, a, b)), UnshiftedInputs(op, a, b), 0, Align2(Widths(op)))
  {
    hide FirstTree, Size, Widths, IsUnsigned, SumRows, Pow2, Offset, Align2, Unshifted, CorrOf, Bit;
    var x, y := FinalInputs(HeldOf(op, a, b)), UnshiftedInputs(op, a, b);
    forall q | 0 <= q < 8
      ensures x[q] == y[q] * Pow2(0 + Offset(Align2(Widths(op)), q))
    {
      Regrouped(op, a, b, q / 2);
    }
  }

  lemma FinalFits(op: Op, a: nat, b: nat)
    ensures Sum8(FinalInputs(HeldOf(op, a, b))) < Pow2(WD)
  {
    hide FirstTree, Size, Widths, IsUnsigned, SumRows, Pow2, Rows, CorrOf, Bit, Align2, Group;
    FirstLevel(op, a, b, 0);
    FirstLevel(op, a, b, 1);
    FirstLevel(op, a, b, 2);
    FirstLevel(op, a, b, 3);
    AllRowsFit(op, a, b);
  }

  lemma UnshiftedSums(op: Op, a: nat, b: nat)
    ensures var n, uns, x := Size(op), IsUnsigned(op), UnshiftedInputs(op, a, b);
      && x[0] + x[1] + x[2] + x[3] == SumRows(uns, a, b, n, 0, 16)
      && x[4] + x[5] + x[6] + x[7] == SumRows(uns, a, b, n, 16, 32)
      && Sum8(x) == SumRows(uns, a, b, n, 0, 32)
  {
    hide FirstTree, Size, Widths, IsUnsigned, SumRows, Pow2, Offset, Align2, Unshifted;
    var n, uns := Size(op), IsUnsigned(op);
    Regrouped(op, a, b, 0);
    Regrouped(op, a, b, 1);
    Regrouped(op, a, b, 2);
    Regrouped(op, a, b, 3);
    SumRowsSplit(uns, a, b, n, 0, 8, 16);
    SumRowsSplit(uns, a, b, n, 16, 24, 32);
    SumRowsSplit(uns, a, b, n, 0, 16, 32);
  }

  /** Both tree levels are exact. The taps hold the lower and the upper sixteen rows, the upper ones
      still shifted when the elements are at most 16 bits wide; the output holds all rows. */
  lemma FinalLevel(op: Op, a: nat, b: nat)
    ensures var n, uns, t, e := Size(op), IsUnsigned(op), FinalTree(HeldOf(op, a, b)), Align2(Widths(op)).Second();
      && t.o.Total() == SumRows(uns, a, b, n, 0, 32) < Pow2(WD)
      && t.right.Total() == SumRows(uns, a, b, n, 0, 16)
      && t.left.Total() == SumRows(uns, a, b, n, 16, 32) * Pow2(e) && t.left.Multiple(e)
  {
    hide FirstTree, Size, Widths, IsUnsigned, SumRows, Pow2, Low, Offset, Align2, Sized, Tree8, CorrOf, Bit;
    hide UnshiftedInputs, FinalInputs, Sum8, Shifted;
    FinalShifted(op, a, b);
    FinalFits(op, a, b);
    UnshiftedSums(op, a, b);
    FinalAlignment(Widths(op), Size(op), 0);
    TreeAligned(FinalInputs(HeldOf(op, a, b)), UnshiftedInputs(op, a, b), 0, Align2(Widths(op)), WD);
    PowZero();
  }
}
