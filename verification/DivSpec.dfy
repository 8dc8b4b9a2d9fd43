/** Division as the RISC-V Unprivileged ISA 20191213, section 7.2, defines it, for any word width. */
module DivSpec {
  import opened BitSlices

  function Abs(x: int): nat { if x < 0 then -x else x }

  /** Two's complement reading of a word below m = 2^W. */
  function Signed(x: nat, m: nat): int { if 2 * x >= m then x - m else x }

  /** The word that holds an integer. */
  function WordOf(x: int, m: nat): (r: nat)
    requires m > 0
    ensures r < m
  {
    x % m
  }

  /** Quotient rounded toward zero, and the remainder that goes with it. */
  function TruncQuot(x: int, y: int): int requires y != 0 {
    var q := Abs(x) / Abs(y);
    if (x < 0) != (y < 0) then -q else q
  }
  function TruncRem(x: int, y: int): int requires y != 0 {
    var r := Abs(x) % Abs(y);
    if x < 0 then -r else r
  }

  /** DIV and REM (signed) or DIVU and REMU: the quotient and remainder words. */
  function Quotient(uns: bool, a: nat, b: nat, m: nat): nat
    requires a < m && b < m
  {
    if b == 0 then m - 1
    else if uns then a / b
    else WordOf(TruncQuot(Signed(a, m), Signed(b, m)), m)
  }
  function Remainder(uns: bool, a: nat, b: nat, m: nat): nat
    requires a < m && b < m
  {
    if b == 0 then a
    else if uns then a % b
    else WordOf(TruncRem(Signed(a, m), Signed(b, m)), m)
  }

  lemma DivRange(x: nat, y: nat)
    requires y > 0
    ensures x == (x / y) * y + x % y && x / y <= x && (y >= 2 && x > 0 ==> x / y < x)
  {
    var q := x / y;
    assert x == y * q + x % y;
    if q > 0 && y >= 2 {
      assert y * q >= 2 * q by { assert (y - 2) * q >= 0; }
    }
    if q > 0 {
      assert y * q >= q by { assert (y - 1) * q >= 0; }
    }
  }

  lemma IntDiv(x: int, y: nat)
    requires y > 0
    ensures x == (x / y) * y + x % y
  {
  }

  lemma NegMul(x: int, y: int)
    ensures (-x) * y == -(x * y) && x * (-y) == -(x * y) && (-x) * (-y) == x * y
  {
  }

  /** The signed definitions mean what the ISA says: dividend = quotient * divisor + remainder, the
      remainder is smaller in magnitude than the divisor and takes the sign of the dividend. */
  lemma TruncMeaning(x: int, y: int)
    requires y != 0
    ensures x == TruncQuot(x, y) * y + TruncRem(x, y)
    ensures Abs(TruncRem(x, y)) < Abs(y)
    ensures TruncRem(x, y) != 0 ==> (TruncRem(x, y) < 0) == (x < 0)
  {
    var ax: int, ay: int := Abs(x), Abs(y);
    var q: int, r: int := ax / ay, ax % ay;
    DivRange(ax, ay);
    NegMul(q, ay);
    SignCases(x, y, q, r, ax, ay);
  }

  lemma SignCases(x: int, y: int, q: int, r: int, ax: int, ay: int)
    requires ax == q * ay + r && (x == ax || x == -ax) && (y == ay || y == -ay)
    ensures x == (if (x == ax) != (y == ay) then -q else q) * y + (if x == ax then r else -r)
  {
    NegMul(q, ay);
  }
}
