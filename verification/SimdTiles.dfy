/** The masked partial-product matrix splits into diagonal tiles: row n*t + i of the double-wide view
    is row i of tile t, shifted left by 2*n*t beyond its place inside the tile. */
module SimdTiles {
  import opened BitSlices
  import opened BaughWooley
  import opened SimdModel

  predicate Sized(w: Ew, n: nat) {
    match n
    case 32 => w == Ew(true, false, false, false, false)
    case 16 => w == Ew(false, true, false, false, false)
    case 8 => w == Ew(false, false, true, false, false)
    case 4 => w == Ew(false, false, false, true, false)
    case 2 => w == Ew(false, false, false, false, true)
    case _ => false
  }

  /** q copies of an n-bit field with only its top bit set. */
  function Repeat(n: nat, q: nat): nat requires n > 0 {
    if q == 0 then 0 else Repeat(n, q - 1) * Pow2(n) + Pow2(n - 1)
  }

  lemma BitSkip(x: nat, n: nat, r: nat)
    ensures Bit(x, n + r) == Bit(High(x, n), r)
  {
    HighCompose(x, n, r);
  }

  lemma {:induction false} BitOfPower(p: nat, i: nat)
    ensures Bit(Pow2(p), i) == if i == p then 1 else 0
  {
    if i > 0 {
      if p > 0 {
        BitOfPower(p - 1, i - 1);
      } else {
        BitOfZero(i - 1);
      }
    }
  }

  lemma {:induction false} BitOfZero(i: nat)
    ensures Bit(0, i) == 0
  {
    if i > 0 {
      BitOfZero(i - 1);
    }
  }

  lemma TopBitFits(n: nat)
    requires n > 0
    ensures Pow2(n - 1) < Pow2(n)
  {
  }

  lemma {:induction false} RepeatBit(n: nat, q: nat, k: nat, i: nat)
    requires n > 0 && k < q && i < n
    ensures Bit(Repeat(n, q), n * k + i) == if i == n - 1 then 1 else 0
  {
    hide High, Low, Join, Bit;
    var x := Repeat(n, q);
    TopBitFits(n);
    SlicesUnique(x, Repeat(n, q - 1), Pow2(n - 1), n);
    if k == 0 {
      BitOfLow(x, n, i);
      BitOfPower(n - 1, i);
    } else {
      RepeatBit(n, q - 1, k - 1, i);
      assert n * k + i == n + (n * (k - 1) + i) by { assert n * k == n * (k - 1) + n; }
      BitSkip(x, n, n * (k - 1) + i);
    }
  }

  lemma {:induction false} RepeatTwice(n: nat, q: nat, k: nat)
    requires n > 0
    ensures Repeat(n, k + q) == Repeat(n, k) * Pow2(n * q) + Repeat(n, q)
  {
    hide Pow2, Repeat;
    if q == 0 {
      assert n * q == 0;
      PowZero();
      RepeatNone(n);
    } else {
      RepeatTwice(n, q - 1, k);
      assert n * q == n * (q - 1) + n;
      Pow2Add(n * (q - 1), n);
      ScaleBoth(Repeat(n, k), Pow2(n * (q - 1)), Repeat(n, q - 1), Pow2(n));
      RepeatStep(n, k + q);
      RepeatStep(n, q);
    }
  }

  lemma ScaleBoth(x: nat, p: nat, v: nat, d: nat)
    ensures (x * p + v) * d == x * (p * d) + v * d
  {
  }

  lemma RepeatNone(n: nat)
    requires n > 0
    ensures Repeat(n, 0) == 0
  {
  }

  lemma RepeatStep(n: nat, q: nat)
    requires n > 0 && q > 0
    ensures Repeat(n, q) == Repeat(n, q - 1) * Pow2(n) + Pow2(n - 1)
  {
  }

  lemma RepeatOnce(n: nat)
    requires n > 0
    ensures Repeat(n, 1) == Pow2(n - 1)
  {
    hide Pow2;
    assert Repeat(n, 0) == 0;
  }

  lemma MaskPatterns()
    ensures Repeat(2, 16) == 0xAAAA_AAAA && Repeat(4, 8) == 0x8888_8888 && Repeat(8, 4) == 0x8080_8080
    ensures Repeat(16, 2) == 0x8000_8000 && Repeat(32, 1) == 0x8000_0000
  {
    hide Repeat, Pow2;
    PowerValues();
    RepeatOnce(2);
    RepeatTwice(2, 1, 1);
    RepeatTwice(2, 2, 2);
    RepeatTwice(2, 4, 4);
    RepeatTwice(2, 8, 8);
    RepeatOnce(4);
    RepeatTwice(4, 1, 1);
    RepeatTwice(4, 2, 2);
    RepeatTwice(4, 4, 4);
    RepeatOnce(8);
    RepeatTwice(8, 1, 1);
    RepeatTwice(8, 2, 2);
    RepeatOnce(16);
    RepeatTwice(16, 1, 1);
    RepeatOnce(32);
  }

  /** The sign mask marks the top bit of every element. */
  lemma SignMaskBit(w: Ew, uns: bool, n: nat, t: nat, i: nat)
    requires Sized(w, n) && i < n && n * t + n <= W
    ensures Bit(SignMask(w, uns), n * t + i) == if !uns && i == n - 1 then 1 else 0
  {
    hide High, Low, Join, Bit, Repeat;
    if uns {
      BitOfZero(n * t + i);
    } else {
      MaskPatterns();
      var q := if n == 2 then 16 else if n == 4 then 8 else if n == 8 then 4 else if n == 16 then 2 else 1;
      assert t < q;
      RepeatBit(n, q, t, i);
    }
  }

  lemma SliceBit(x: nat, t: nat, n: nat, i: nat)
    requires i < n
    ensures Bit(Slice(x, t, n), i) == Bit(x, n * t + i)
  {
    BitOfLow(High(x, n * t), n, i);
    BitSkip(x, n * t, i);
  }

  lemma DivWithin(c: nat, n: nat, t: nat)
    requires n > 0
    ensures c / n == t <==> n * t <= c < n * t + n
  {
    var q := c / n;
    assert c == n * q + c % n;
    if q < t {
      MulMonotone(q + 1, t, n);
    } else if q > t {
      MulMonotone(t + 1, q, n);
    }
  }

  lemma DivOfSum(n: nat, t: nat, i: nat)
    requires i < n
    ensures (n * t + i) / n == t && (n * t + i) % n == i
  {
    DivWithin(n * t + i, n, t);
  }

  lemma TileCase(w: Ew, n: nat, t: nat, i: nat, c: nat)
    requires Sized(w, n) && i < n && n * t + n <= W && c < W
    ensures InTile(w, n * t + i, c) <==> n * t <= c < n * t + n
  {
    DivOfSum(n, t, i);
    DivWithin(c, n, t);
    if n == 32 {
      assert t == 0;
    }
  }

  lemma PpCell(w: Ew, uns: bool, a: nat, b: nat, n: nat, t: nat, i: nat, c: nat)
    requires Sized(w, n) && i < n && n * t + n <= W && c < W
    ensures Pp(w, uns, a, b, n * t + i, c) ==
      if n * t <= c < n * t + n then Cell(uns, Slice(a, t, n), Slice(b, t, n), n, i, c - n * t) else 0
  {
    hide Bit, Slice, SignMask, InTile;
    TileCase(w, n, t, i, c);
    if n * t <= c < n * t + n {
      var j := c - n * t;
      SignMaskBit(w, uns, n, t, i);
      SignMaskBit(w, uns, n, t, j);
      SliceBit(b, t, n, i);
      SliceBit(a, t, n, j);
    }
  }

  /** How many of the first c columns belong to the tile that starts at column z. */
  function Inside(c: nat, n: nat, z: nat): nat {
    if c <= z then 0 else if c - z <= n then c - z else n
  }

  /** Row r holds row i of the tile with operands x and y at column z, and nothing else. */
  ghost predicate RowOfTile(w: Ew, uns: bool, a: nat, b: nat, r: nat, n: nat, z: nat, i: nat, x: nat, y: nat) {
    forall k: nat :: k < W ==> Pp(w, uns, a, b, r, k) == if z <= k < z + n then Cell(uns, x, y, n, i, k - z) else 0
  }

  lemma {:induction false} RowPlaced(w: Ew, uns: bool, a: nat, b: nat, r: nat, n: nat, z: nat, i: nat, x: nat, y: nat, c: nat)
    requires RowOfTile(w, uns, a, b, r, n, z, i, x, y) && z + n <= W && c <= W
    ensures PpRow(w, uns, a, b, r, c) == RowValue(uns, x, y, n, i, Inside(c, n, z)) * Pow2(z)
  {
    hide Pp, Cell, Pow2, PpRow, RowValue;
    RowEdge(w, uns, a, b, r, c);
    ValueEdge(uns, x, y, n, i, Inside(c, n, z));
    if c > 0 {
      RowPlaced(w, uns, a, b, r, n, z, i, x, y, c - 1);
      if z < c <= z + n {
        var j: nat := c - 1 - z;
        Pow2Add(z, j);
        ScaleSum(RowValue(uns, x, y, n, i, j), Cell(uns, x, y, n, i, j), Pow2(j), Pow2(z));
      }
    }
  }

  lemma RowEdge(w: Ew, uns: bool, a: nat, b: nat, r: nat, c: nat)
    ensures PpRow(w, uns, a, b, r, c) ==
      if c == 0 then 0 else PpRow(w, uns, a, b, r, c - 1) + Pp(w, uns, a, b, r, c - 1) * Pow2(c - 1)
  {
    hide Pp, Pow2;
  }

  lemma ValueEdge(uns: bool, x: nat, y: nat, n: nat, i: nat, j: nat)
    ensures RowValue(uns, x, y, n, i, j) ==
      if j == 0 then 0 else RowValue(uns, x, y, n, i, j - 1) + Cell(uns, x, y, n, i, j - 1) * Pow2(j - 1)
  {
    hide Cell, Pow2;
  }

  lemma RowInTile(w: Ew, uns: bool, a: nat, b: nat, n: nat, t: nat, i: nat)
    requires Sized(w, n) && i < n && n * t + n <= W
    ensures PpRow(w, uns, a, b, n * t + i, W) == RowValue(uns, Slice(a, t, n), Slice(b, t, n), n, i, n) * Pow2(n * t)
  {
    hide Pp, Cell, Slice, Sized, Pow2, RowValue, PpRow;
    var r, z, x, y := n * t + i, n * t, Slice(a, t, n), Slice(b, t, n);
    forall k: nat | k < W
      ensures Pp(w, uns, a, b, r, k) == if z <= k < z + n then Cell(uns, x, y, n, i, k - z) else 0
    {
      PpCell(w, uns, a, b, n, t, i, k);
    }
    RowPlaced(w, uns, a, b, r, n, z, i, x, y, W);
  }

  lemma ScaleSum(v: nat, y: nat, p: nat, q: nat)
    ensures v * q + y * (q * p) == (v + y * p) * q
  {
  }

  /** Row r at its place inside its own tile. */
  function InPlace(uns: bool, a: nat, b: nat, n: nat, r: nat): nat requires n > 0 {
    var t, i := r / n, r % n;
    RowValue(uns, Slice(a, t, n), Slice(b, t, n), n, i, n) * Pow2(i)
  }

  lemma RowAligned(w: Ew, uns: bool, a: nat, b: nat, n: nat, r: nat)
    requires Sized(w, n) && r < W
    ensures Ppv(w, uns, a, b)[r] == InPlace(uns, a, b, n, r) * Pow2(2 * (n * (r / n)))
  {
    hide PpRow, Slice, RowValue, Pow2, Ppv;
    PpvRow(w, uns, a, b, r);
    var t, i := r / n, r % n;
    assert r == n * t + i;
    TileEnd(n, t, r, w);
    RowInTile(w, uns, a, b, n, t, i);
    Pow2Add(n * t, i);
    Pow2Add(n * t, n * t);
    Regroup(RowValue(uns, Slice(a, t, n), Slice(b, t, n), n, i, n), Pow2(n * t), Pow2(i));
  }

  lemma PpvRow(w: Ew, uns: bool, a: nat, b: nat, r: nat)
    requires r < W
    ensures Ppv(w, uns, a, b)[r] == PpRow(w, uns, a, b, r, W) * Pow2(r)
  {
    hide PpRow, Pow2;
  }

  lemma TileEnd(n: nat, t: nat, r: nat, w: Ew)
    requires Sized(w, n) && r < W && t == r / n
    ensures n * t + n <= W
  {
  }

  lemma Regroup(v: nat, q: nat, p: nat)
    ensures v * q * (q * p) == v * p * (q * q)
  {
    assert v * q * (q * p) == v * (q * q * p);
  }

  /** A row never exceeds 32 ones in place. */
  lemma {:induction false} RowFits(w: Ew, uns: bool, a: nat, b: nat, r: nat, c: nat)
    ensures PpRow(w, uns, a, b, r, c) < Pow2(c)
  {
    hide Pp;
    if c > 0 {
      RowFits(w, uns, a, b, r, c - 1);
      PpRange(w, uns, a, b, r, c - 1);
      MulMonotone(Pp(w, uns, a, b, r, c - 1), 1, Pow2(c - 1));
    }
  }

  lemma PpRange(w: Ew, uns: bool, a: nat, b: nat, r: nat, c: nat)
    ensures Pp(w, uns, a, b, r, c) <= 1
  {
  }

  // ---------------------------------------------------------------------------------------
  // Sums of rows

  /** Rows lo to hi - 1, each at its place inside its tile. */
  function SumRows(uns: bool, a: nat, b: nat, n: nat, lo: nat, hi: nat): nat
    requires n > 0 && lo <= hi
    decreases hi - lo
  {
    if lo == hi then 0 else SumRows(uns, a, b, n, lo, hi - 1) + InPlace(uns, a, b, n, hi - 1)
  }

  lemma {:induction false} SumRowsSplit(uns: bool, a: nat, b: nat, n: nat, lo: nat, mid: nat, hi: nat)
    requires n > 0 && lo <= mid <= hi
    ensures SumRows(uns, a, b, n, lo, hi) == SumRows(uns, a, b, n, lo, mid) + SumRows(uns, a, b, n, mid, hi)
  {
    hide InPlace;
    if mid < hi {
      SumRowsSplit(uns, a, b, n, lo, mid, hi - 1);
    }
  }

  /** The rows of one tile make its value. */
  lemma {:induction false} TileRows(uns: bool, a: nat, b: nat, n: nat, t: nat, i: nat)
    requires 0 < n && i <= n
    ensures SumRows(uns, a, b, n, n * t, n * t + i) == TileValue(uns, Slice(a, t, n), Slice(b, t, n), n, i)
  {
    hide Slice, RowValue;
    if i > 0 {
      TileRows(uns, a, b, n, t, i - 1);
      DivOfSum(n, t, i - 1);
    }
  }

  /** Sum of the products of the first t elements. */
  function DotValue(uns: bool, a: nat, b: nat, n: nat, t: nat): int requires n > 0 {
    if t == 0 then 0
    else DotValue(uns, a, b, n, t - 1) + Value(Slice(a, t - 1, n), n, uns) * Value(Slice(b, t - 1, n), n, uns)
  }

  lemma SliceFits(x: nat, t: nat, n: nat)
    ensures Slice(x, t, n) < Pow2(n)
  {
  }

  lemma {:induction false} RowsAreDot(uns: bool, a: nat, b: nat, n: nat, t: nat)
    requires n > 0
    ensures SumRows(uns, a, b, n, 0, n * t) == DotValue(uns, a, b, n, t) + t * Bias(n, uns)
  {
    hide Slice, Value, TileValue, InPlace, Bias;
    if t > 0 {
      var k := t - 1;
      RowsAreDot(uns, a, b, n, k);
      assert n * t == n * k + n;
      SumRowsSplit(uns, a, b, n, 0, n * k, n * t);
      TileRows(uns, a, b, n, k, n);
      SliceFits(a, k, n);
      SliceFits(b, k, n);
      TileProduct(uns, Slice(a, k, n), Slice(b, k, n), n);
      assert t * Bias(n, uns) == k * Bias(n, uns) + Bias(n, uns);
    } else {
      assert n * t == 0;
    }
  }
}
