/** Integers wrapped to k-bit words. */
module WordArith {
  import opened BitSlices

  function Wrap(x: int, k: nat): (r: nat)
    ensures r < Pow2(k)
  {
    x % Pow2(k)
  }

  /** The wrapped word is the only residue in range. */
  lemma WrapUnique(x: int, k: nat, q: int, r: nat)
    requires x == q * Pow2(k) + r && r < Pow2(k)
    ensures Wrap(x, k) == r
  {
    hide Pow2;
    var m := Pow2(k);
    var p: int := x / m;
    assert x == m * p + x % m;
    if p < q {
      MulMonotone(p + 1, q, m);
    } else if p > q {
      MulMonotone(q + 1, p, m);
    }
  }

  lemma WrapWitness(x: int, k: nat) returns (q: int)
    ensures x == q * Pow2(k) + Wrap(x, k)
  {
    hide Pow2;
    q := x / Pow2(k);
  }

  lemma WrapShift(x: int, q: int, k: nat)
    ensures Wrap(x + q * Pow2(k), k) == Wrap(x, k)
  {
    hide Pow2, Wrap;
    var p := WrapWitness(x, k);
    assert x + q * Pow2(k) == (p + q) * Pow2(k) + Wrap(x, k);
    WrapUnique(x + q * Pow2(k), k, p + q, Wrap(x, k));
  }

  lemma LowIsWrap(x: nat, k: nat)
    ensures Low(x, k) == Wrap(x, k)
  {
    hide Pow2, Wrap, Low, High;
    SlicesAreDivMod(x, k);
    WrapUnique(x, k, High(x, k), Low(x, k));
  }

  /** Adding into a word wraps the sum of whatever the summands stand for. */
  lemma WrapOfWrap(x: int, y: int, k: nat)
    ensures Wrap(Wrap(x, k) + y, k) == Wrap(x + y, k)
  {
    hide Pow2, Wrap;
    var p := WrapWitness(x, k);
    WrapShift(Wrap(x, k) + y, p, k);
  }

  /** Truncating a word to fewer bits. */
  lemma LowOfWrap(x: int, j: nat, k: nat)
    requires j <= k
    ensures Low(Wrap(x, k), j) == Wrap(x, j)
  {
    hide Pow2, Wrap, Low;
    var p := WrapWitness(x, k);
    Pow2Add(k - j, j);
    LowIsWrap(Wrap(x, k), j);
    assert p * (Pow2(k - j) * Pow2(j)) == (p * Pow2(k - j)) * Pow2(j);
    WrapShift(Wrap(x, k), p * Pow2(k - j), j);
  }

  /** One period around zero. */
  lemma WrapNear(x: int, k: nat)
    requires 0 - Pow2(k) <= x < 2 * Pow2(k)
    ensures Wrap(x, k) == if x < 0 then x + Pow2(k) else if x < Pow2(k) then x else x - Pow2(k)
  {
    hide Pow2, Wrap;
    if x < 0 {
      WrapUnique(x, k, -1, x + Pow2(k));
    } else if x < Pow2(k) {
      WrapUnique(x, k, 0, x);
    } else {
      WrapUnique(x, k, 1, x - Pow2(k));
    }
  }
}
