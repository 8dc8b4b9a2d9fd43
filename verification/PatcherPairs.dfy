/** The marker pairs of a file, characterised without a scan: which lists of pairs a file has, and that it
    has at most one. */
module PatcherPairs {
  import opened Options
  import opened PatcherModel
  import opened PatcherSplice
  import opened PatcherProof

  /** Pairs from line i on, one behind the other. */
  ghost predicate InOrder(ps: seq<Pair>, i: nat, n: nat) {
    && (forall m :: 0 <= m < |ps| ==> i <= ps[m].begin < ps[m].end < n)
    && (forall m, k :: 0 <= m < k < |ps| ==> ps[m].end < ps[k].begin)
  }

  /** An opening line, unmarked lines, a closing line. */
  ghost predicate Block(lines: seq<string>, p: Pair) {
    && p.begin < p.end < |lines| && Opens(lines[p.begin]) && Closes(lines[p.end])
    && forall k :: p.begin < k < p.end ==> !Marked(lines[k])
  }

  ghost predicate Blocks(lines: seq<string>, ps: seq<Pair>) { forall m :: 0 <= m < |ps| ==> Block(lines, ps[m]) }

  ghost predicate Within(ps: seq<Pair>, k: nat) { exists m :: 0 <= m < |ps| && ps[m].begin <= k <= ps[m].end }

  /** Every opening line from line i on belongs to a pair. */
  ghost predicate Covers(lines: seq<string>, i: nat, ps: seq<Pair>) {
    forall k :: i <= k < |lines| && Opens(lines[k]) ==> Within(ps, k)
  }

  /** A file can be patched at these pairs. */
  ghost predicate IsPairing(lines: seq<string>, i: nat, ps: seq<Pair>) {
    InOrder(ps, i, |lines|) && Blocks(lines, ps) && Covers(lines, i, ps)
  }

  /** The scan for the end of a block finds the first marked line, if that closes. */
  lemma {:induction false} CloseExactly(lines: seq<string>, j: nat, e: nat)
    requires j <= e < |lines| && Closes(lines[e]) && forall k :: j <= k < e ==> !Marked(lines[k])
    ensures FindClose(lines, j) == Some(e)
    decreases e - j
  {
    hide Has;
    if j < e {
      CloseExactly(lines, j + 1, e);
    }
  }

  lemma FoundBlock(lines: seq<string>, i: nat)
    requires i < |lines| && Opens(lines[i]) && FindClose(lines, i + 1).Some?
    ensures Block(lines, Pair(i, FindClose(lines, i + 1).value))
  {
    hide Has, FindClose;
    forall k | i < k < FindClose(lines, i + 1).value
      ensures !Marked(lines[k])
    {
      BodyUnmarked(lines, i + 1, k);
    }
  }

  /** A pairing behind a block, with the block in front. */
  lemma PairingCons(lines: seq<string>, i: nat, j: nat, later: seq<Pair>)
    requires i < j < |lines| && Block(lines, Pair(i, j)) && IsPairing(lines, j + 1, later)
    ensures IsPairing(lines, i, [Pair(i, j)] + later)
  {
    hide Opens, Closes, Block;
    var ps := [Pair(i, j)] + later;
    assert InOrder(ps, i, |lines|) by { OrderCons(i, j, later, |lines|); }
    assert Blocks(lines, ps);
    forall k | i <= k < |lines| && Opens(lines[k])
      ensures Within(ps, k)
    {
      WithinCons(i, j, later, k);
    }
  }

  lemma OrderCons(i: nat, j: nat, later: seq<Pair>, n: nat)
    requires i < j < n && InOrder(later, j + 1, n)
    ensures InOrder([Pair(i, j)] + later, i, n)
  {
  }

  lemma WithinCons(i: nat, j: nat, later: seq<Pair>, k: nat)
    requires i <= k
    ensures k <= j || Within(later, k) ==> Within([Pair(i, j)] + later, k)
  {
    var ps := [Pair(i, j)] + later;
    if k <= j {
      assert ps[0].begin <= k <= ps[0].end;
    } else if Within(later, k) {
      var m :| 0 <= m < |later| && later[m].begin <= k <= later[m].end;
      assert ps[m + 1] == later[m];
    }
  }

  /** Pairs found are a pairing. */
  lemma {:induction false} FoundArePairing(lines: seq<string>, i: nat)
    requires i <= |lines| && FindPairs(lines, i).Some?
    ensures IsPairing(lines, i, FindPairs(lines, i).value)
    decreases |lines| - i
  {
    hide Opens, Closes, FindClose, FindPairs, Block;
    if i == |lines| {
      PairsEnd(lines);
    } else if !Opens(lines[i]) {
      PairsPlain(lines, i);
      FoundArePairing(lines, i + 1);
    } else {
      PairsBlock(lines, i);
      FoundBlock(lines, i);
      var j := FindClose(lines, i + 1).value;
      FoundArePairing(lines, j + 1);
      hide IsPairing;
      PairingCons(lines, i, j, FindPairs(lines, j + 1).value);
    }
  }

  /** A pairing whose first line opens starts with a block there, and the rest is a pairing behind it. */
  lemma PairingFirst(lines: seq<string>, i: nat, ps: seq<Pair>)
    requires i < |lines| && Opens(lines[i]) && IsPairing(lines, i, ps)
    ensures ps != [] && ps[0].begin == i && FindClose(lines, i + 1) == Some(ps[0].end)
    ensures ps[0].end < |lines| && IsPairing(lines, ps[0].end + 1, ps[1..])
  {
    hide Opens, Closes;
    assert Within(ps, i);
    var m :| 0 <= m < |ps| && ps[m].begin <= i <= ps[m].end;
    FirstOf(ps, i, m, |lines|);
    assert Block(lines, ps[0]);
    CloseExactly(lines, i + 1, ps[0].end);
    hide Block;
    assert InOrder(ps[1..], ps[0].end + 1, |lines|);
    forall k | ps[0].end + 1 <= k < |lines| && Opens(lines[k])
      ensures Within(ps[1..], k)
    {
      WithinTail(ps, k);
    }
  }

  lemma FirstOf(ps: seq<Pair>, i: nat, m: nat, n: nat)
    requires InOrder(ps, i, n) && m < |ps| && ps[m].begin <= i
    ensures m == 0 && ps[0].begin == i
  {
    assert ps[0].begin >= i;
  }

  lemma WithinTail(ps: seq<Pair>, k: nat)
    requires ps != [] && Within(ps, k) && ps[0].end < k
    ensures Within(ps[1..], k)
  {
    var m :| 0 <= m < |ps| && ps[m].begin <= k <= ps[m].end;
    assert ps[1..][m - 1] == ps[m];
  }

  /** A pairing begins no earlier than at the first line that opens. */
  lemma PairingLater(lines: seq<string>, i: nat, ps: seq<Pair>)
    requires i < |lines| && !Opens(lines[i]) && IsPairing(lines, i, ps)
    ensures IsPairing(lines, i + 1, ps)
  {
    hide Opens, Closes;
    forall m | 0 <= m < |ps|
      ensures i + 1 <= ps[m].begin
    {
      assert Block(lines, ps[m]);
    }
  }

  lemma NoPairsAtEnd(lines: seq<string>, ps: seq<Pair>)
    requires IsPairing(lines, |lines|, ps)
    ensures ps == []
  {
    if ps != [] {
      FirstInRange(ps, |lines|, |lines|);
      assert false;
    }
  }

  lemma FirstInRange(ps: seq<Pair>, i: nat, n: nat)
    requires InOrder(ps, i, n) && ps != []
    ensures i <= ps[0].begin < n
  {
  }

  /** A file has no other pairing than the one found. */
  lemma {:induction false} PairingIsFound(lines: seq<string>, i: nat, ps: seq<Pair>)
    requires i <= |lines| && IsPairing(lines, i, ps)
    ensures FindPairs(lines, i) == Some(ps)
    decreases |lines| - i
  {
    hide Has, FindClose, FindPairs, IsPairing;
    if i == |lines| {
      PairsEnd(lines);
      NoPairsAtEnd(lines, ps);
    } else if !Opens(lines[i]) {
      PairsPlain(lines, i);
      PairingLater(lines, i, ps);
      PairingIsFound(lines, i + 1, ps);
    } else {
      PairingFirst(lines, i, ps);
      PairsBlock(lines, i);
      PairingIsFound(lines, ps[0].end + 1, ps[1..]);
      assert ps == [Pair(i, ps[0].end)] + ps[1..];
    }
  }

  /** The pairs of a file are its one pairing; the scan fails exactly when there is none. */
  lemma PairsExactly(lines: seq<string>, ps: seq<Pair>)
    ensures FindPairs(lines, 0) == Some(ps) <==> IsPairing(lines, 0, ps)
    ensures FindPairs(lines, 0).None? <==> forall qs :: !IsPairing(lines, 0, qs)
  {
    hide IsPairing, FindPairs;
    if FindPairs(lines, 0).Some? {
      FoundArePairing(lines, 0);
    }
    forall qs | IsPairing(lines, 0, qs)
      ensures FindPairs(lines, 0) == Some(qs)
    {
      PairingIsFound(lines, 0, qs);
    }
  }
}
