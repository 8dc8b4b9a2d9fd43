/** Sign-flipped partial products of two n-bit words, for any n: their weighted sum is the product
    plus a constant (modified Baugh-Wooley), or the plain product when nothing is flipped. */
module BaughWooley {
  import opened BitSlices

  function Bit(x: nat, i: nat): (b: nat)
    ensures b <= 1
  {
    High(x, i) % 2
  }

  /** Two's complement reading of an n-bit word. */
  function Signed(x: nat, n: nat): int requires n > 0 {
    if Bit(x, n - 1) == 1 then x - Pow2(n) else x
  }

  function Value(x: nat, n: nat, uns: bool): int requires n > 0 {
    if uns then x else Signed(x, n)
  }

  /** Entry in row i (bit i of b) and column j (bit j of a). */
  function Cell(uns: bool, a: nat, b: nat, n: nat, i: nat, j: nat): (y: nat)
    ensures y <= 1
  {
    var y := Bit(b, i) * Bit(a, j);
    if !uns && (i == n - 1) != (j == n - 1) then 1 - y else y
  }

  /** Weighted sum of the first j columns of row i. */
  function RowValue(uns: bool, a: nat, b: nat, n: nat, i: nat, j: nat): nat {
    if j == 0 then 0 else RowValue(uns, a, b, n, i, j - 1) + Cell(uns, a, b, n, i, j - 1) * Pow2(j - 1)
  }

  /** Weighted sum of the first i rows. */
  function TileValue(uns: bool, a: nat, b: nat, n: nat, i: nat): nat {
    if i == 0 then 0 else TileValue(uns, a, b, n, i - 1) + RowValue(uns, a, b, n, i - 1, n) * Pow2(i - 1)
  }

  // ---------------------------------------------------------------------------------------

  /** Bits and prefixes of a word. */
  lemma {:induction false} BitOfLow(x: nat, n: nat, i: nat)
    requires i < n
    ensures Bit(Low(x, n), i) == Bit(x, i)
  {
    if i > 0 {
      BitOfLow(x / 2, n - 1, i - 1);
    }
  }

  lemma LowNext(x: nat, k: nat)
    ensures Low(x, k + 1) == Bit(x, k) * Pow2(k) + Low(x, k)
  {
    SplitNext(x, k + 1);
  }

  lemma LowAll(x: nat, n: nat)
    requires x < Pow2(n)
    ensures Low(x, n) == x
  {
    HighZero(x, n);
  }

  lemma SignedSplit(x: nat, n: nat)
    requires n > 0 && x < Pow2(n)
    ensures Signed(x, n) == Low(x, n - 1) - Bit(x, n - 1) * Pow2(n - 1)
  {
    hide High, Low;
    LowNext(x, n - 1);
    LowAll(x, n);
  }

  lemma {:induction false} RowBound(uns: bool, a: nat, b: nat, n: nat, i: nat, j: nat)
    ensures RowValue(uns, a, b, n, i, j) < Pow2(j)
  {
    hide Cell;
    if j > 0 {
      RowBound(uns, a, b, n, i, j - 1);
    }
  }

  /** Columns below the sign column: the row is complemented exactly when it is the sign row. */
  lemma {:induction false} RowPrefix(uns: bool, a: nat, b: nat, n: nat, i: nat, j: nat)
    requires i < n && (j < n || (uns && j == n))
    ensures RowValue(uns, a, b, n, i, j) == if !uns && i == n - 1 then Pow2(j) - 1 - Bit(b, i) * Low(a, j) else Bit(b, i) * Low(a, j)
  {
    hide High, Low, Bit;
    if j == 0 {
      assert Low(a, 0) == 0 by { LowNone(a); }
    } else {
      RowPrefix(uns, a, b, n, i, j - 1);
      LowNext(a, j - 1);
      CellStep(Bit(b, i), Bit(a, j - 1), Low(a, j - 1), Pow2(j - 1));
    }
  }

  lemma CellStep(bi: nat, aj: nat, low: nat, p: nat)
    ensures bi * (aj * p + low) == bi * low + (bi * aj) * p
    ensures (1 - bi * aj) * p == p - (bi * aj) * p
  {
    assert bi * (aj * p) == (bi * aj) * p;
  }

  lemma LowNone(a: nat)
    ensures Low(a, 0) == 0
  {
  }

  /** A whole row contributes the signed multiplicand when its bit is set, plus a constant. */
  lemma RowTotal(a: nat, b: nat, n: nat, i: nat)
    requires i < n && a < Pow2(n)
    ensures RowValue(false, a, b, n, i, n) ==
      if i == n - 1 then Pow2(n - 1) - 1 - Bit(b, i) * Signed(a, n) else Bit(b, i) * Signed(a, n) + Pow2(n - 1)
  {
    hide High, Low, Bit, Signed;
    RowPrefix(false, a, b, n, i, n - 1);
    SignedSplit(a, n);
    var bi, s, p := Bit(b, i), Bit(a, n - 1), Pow2(n - 1);
    assert bi * Signed(a, n) == bi * Low(a, n - 1) - bi * (s * p);
    assert bi * (s * p) == (bi * s) * p;
    assert (1 - bi * s) * p == p - (bi * s) * p;
  }

  lemma TileNext(uns: bool, a: nat, b: nat, n: nat, i: nat)
    ensures TileValue(uns, a, b, n, 0) == 0
    ensures TileValue(uns, a, b, n, i + 1) == TileValue(uns, a, b, n, i) + RowValue(uns, a, b, n, i, n) * Pow2(i)
  {
    hide RowValue, Pow2;
  }

  lemma {:induction false} TilePrefix(a: nat, b: nat, n: nat, i: nat)
    requires i < n && a < Pow2(n)
    ensures TileValue(false, a, b, n, i) == Low(b, i) * Signed(a, n) + Pow2(n - 1) * (Pow2(i) - 1)
  {
    hide High, Low, Bit, Signed, RowValue, TileValue, Pow2;
    if i == 0 {
      LowNone(b);
      TileNext(false, a, b, n, 0);
      PowZero();
    } else {
      TileNext(false, a, b, n, i - 1);
      PowNext(i - 1);
      TilePrefix(a, b, n, i - 1);
      RowTotal(a, b, n, i - 1);
      LowNext(b, i - 1);
      RowStep(Bit(b, i - 1), Low(b, i - 1), Signed(a, n), Pow2(i - 1), Pow2(n - 1));
    }
  }

  lemma RowStep(bi: nat, low: nat, sa: int, p: nat, h: nat)
    ensures low * sa + h * (p - 1) + (bi * sa + h) * p == (bi * p + low) * sa + h * (2 * p - 1)
  {
    assert (bi * sa + h) * p == (bi * p) * sa + h * p;
    assert (bi * p + low) * sa == (bi * p) * sa + low * sa;
    assert h * (2 * p - 1) == h * (p - 1) + h * p;
  }

  /** The flipped partial products of two n-bit words sum to A * B + 2^(2n-1) - 2^n. */
  lemma FlippedSum(a: nat, b: nat, n: nat)
    requires n > 0 && a < Pow2(n) && b < Pow2(n)
    ensures TileValue(false, a, b, n, n) == Signed(a, n) * Signed(b, n) + Pow2(2 * n - 1) - Pow2(n)
  {
    hide High, Low, Bit, Signed, RowValue;
    TilePrefix(a, b, n, n - 1);
    RowTotal(a, b, n, n - 1);
    SignedSplit(b, n);
    var p := Pow2(n - 1);
    assert Pow2(2 * n - 1) == 2 * (p * p) by {
      Pow2Add(n - 1, n - 1);
      assert n - 1 + (n - 1) == 2 * n - 2;
    }
    LastRow(Bit(b, n - 1), Low(b, n - 1), Signed(a, n), p);
  }

  lemma LastRow(bi: nat, low: nat, sa: int, p: nat)
    ensures low * sa + p * (p - 1) + (p - 1 - bi * sa) * p == sa * (low - bi * p) + 2 * (p * p) - 2 * p
  {
    assert (p - 1 - bi * sa) * p == p * p - p - (bi * sa) * p;
    assert (bi * sa) * p == sa * (bi * p);
    assert sa * (low - bi * p) == sa * low - sa * (bi * p);
  }

  lemma {:induction false} PlainPrefix(a: nat, b: nat, n: nat, i: nat)
    requires i <= n && a < Pow2(n)
    ensures TileValue(true, a, b, n, i) == Low(b, i) * a
  {
    hide High, Low, Bit, RowValue, TileValue, Pow2;
    if i == 0 {
      LowNone(b);
      TileNext(true, a, b, n, 0);
    } else {
      TileNext(true, a, b, n, i - 1);
      PlainPrefix(a, b, n, i - 1);
      RowPrefix(true, a, b, n, i - 1, n);
      LowAll(a, n);
      LowNext(b, i - 1);
      PlainStep(Bit(b, i - 1), Low(b, i - 1), a, Pow2(i - 1));
    }
  }

  lemma PlainStep(bi: nat, low: nat, a: nat, p: nat)
    ensures low * a + (bi * a) * p == (bi * p + low) * a
  {
    assert (bi * a) * p == (bi * p) * a;
    assert (bi * p + low) * a == (bi * p) * a + low * a;
  }

  /** What one tile adds to the product of its operands. */
  function Bias(n: nat, uns: bool): int requires n > 0 { if uns then 0 else Pow2(2 * n - 1) - Pow2(n) }

  /** Signed or unsigned, one tile is the exact product plus the bias. */
  lemma TileProduct(uns: bool, a: nat, b: nat, n: nat)
    requires n > 0 && a < Pow2(n) && b < Pow2(n)
    ensures TileValue(uns, a, b, n, n) == Value(a, n, uns) * Value(b, n, uns) + Bias(n, uns)
  {
    hide High, Low, Bit, Signed, RowValue, TileValue, Pow2;
    if uns {
      PlainPrefix(a, b, n, n);
      LowAll(b, n);
    } else {
      FlippedSum(a, b, n);
    }
  }

  /** The sum of a tile fits in 2n bits. */
  lemma TileFits(uns: bool, a: nat, b: nat, n: nat)
    ensures TileValue(uns, a, b, n, n) < Pow2(2 * n)
  {
    hide TileValue, Pow2;
    TileBound(uns, a, b, n, n);
    Pow2Add(n, n);
    SquareBelow(Pow2(n));
  }

  lemma {:induction false} TileBound(uns: bool, a: nat, b: nat, n: nat, i: nat)
    ensures TileValue(uns, a, b, n, i) <= (Pow2(n) - 1) * (Pow2(i) - 1)
  {
    hide RowValue, Pow2;
    if i == 0 {
      assert Pow2(0) == 1 by { PowZero(); }
    } else {
      PowNext(i - 1);
      TileBound(uns, a, b, n, i - 1);
      RowBound(uns, a, b, n, i - 1, n);
      BoundStep(TileValue(uns, a, b, n, i - 1), RowValue(uns, a, b, n, i - 1, n), Pow2(n), Pow2(i - 1));
    }
  }

  lemma PowZero()
    ensures Pow2(0) == 1
  {
  }

  lemma PowNext(k: nat)
    ensures Pow2(k + 1) == 2 * Pow2(k)
  {
  }

  lemma BoundStep(v: nat, r: nat, q: nat, p: nat)
    requires v <= (q - 1) * (p - 1) && r < q
    ensures v + r * p <= (q - 1) * (2 * p - 1)
  {
    MulMonotone(r, q - 1, p);
    Distribute(q - 1, p - 1, p);
  }

  lemma Distribute(m: int, x: int, y: int)
    ensures m * (x + y) == m * x + m * y
  {
  }

  lemma SquareBelow(p: nat)
    requires p >= 1
    ensures (p - 1) * (p - 1) < p * p
  {
    assert (p - 1) * (p - 1) == p * p - 2 * p + 1;
  }

  /** Range of a signed word, and of a product of two. */
  lemma SignedRange(x: nat, n: nat)
    requires n > 0 && x < Pow2(n)
    ensures 0 - Pow2(n - 1) <= Signed(x, n) < Pow2(n - 1)
  {
    hide High, Low, Bit, Signed;
    SignedSplit(x, n);
  }

  lemma ProductRange(x: int, y: int, h: nat)
    requires 0 - h <= x < h && 0 - h <= y < h
    ensures 0 - h * h <= x * y <= h * h
  {
    assert (h - x) * (h + y) >= 0;
    assert (h + x) * (h - y) >= 0;
    assert (h - x) * (h - y) >= 0;
    assert (h + x) * (h + y) >= 0;
    assert (h - x) * (h + y) == h * h + h * y - x * h - x * y;
    assert (h + x) * (h - y) == h * h - h * y + x * h - x * y;
    assert (h - x) * (h - y) == h * h - h * y - x * h + x * y;
    assert (h + x) * (h + y) == h * h + h * y + x * h + x * y;
  }
}
