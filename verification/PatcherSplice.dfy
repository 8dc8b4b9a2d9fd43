/** Splicing by marker positions: it is the front-to-back patch, every line outside the bodies is kept
    at its place shifted by the growth of the bodies before it. */
module PatcherSplice {
  import opened Options
  import opened PatcherModel
  import opened PatcherText

  // ---------------------------------------------------------------------------------------
  // Order of the pairs

  lemma {:induction false} PairsOrdered(lines: seq<string>, i: nat, low: nat)
    requires low <= i <= |lines| && FindPairs(lines, i).Some?
    ensures Ordered(FindPairs(lines, i).value, low, |lines|)
    decreases |lines| - i
  {
    hide Has;
    if i < |lines| {
      if Opens(lines[i]) {
        var j := FindClose(lines, i + 1).value;
        PairsOrdered(lines, j + 1, j);
        assert FindPairs(lines, i).value[1..] == FindPairs(lines, j + 1).value;
      } else {
        PairsOrdered(lines, i + 1, low);
      }
    }
  }

  lemma WeakerStart(ps: seq<Pair>, i: nat, j: nat, n: nat)
    requires i <= j <= n && Ordered(ps, j, n)
    ensures Ordered(ps, i, n)
  {
  }

  lemma OrderedStep(ps: seq<Pair>, i: nat, n: nat)
    requires i <= n && ps != [] && Ordered(ps, i, n)
    ensures i <= ps[0].begin < ps[0].end < n && Ordered(ps[1..], ps[0].end, n)
  {
  }

  lemma {:induction false} OrderedLater(ps: seq<Pair>, i: nat, k: nat, n: nat)
    requires i <= n && Ordered(ps, i, n) && k < |ps|
    ensures i <= ps[k].begin < ps[k].end < n && Ordered(ps[k + 1..], ps[k].end, n) && Ordered(ps[k..], i, n)
    ensures Ordered(ps[k + 1..], i, n)
    decreases |ps|
  {
    if k > 0 {
      OrderedLater(ps[1..], ps[0].end, k - 1, n);
      assert ps[1..][k - 1..] == ps[k..] && ps[1..][k..] == ps[k + 1..];
    }
    WeakerStart(ps[k + 1..], i, ps[k].end, n);
    WeakerStart(ps[k..], i, ps[k].begin, n);
  }

  // ---------------------------------------------------------------------------------------
  // Line by line

  lemma SplicedKeep<T>(lines: seq<T>, i: nat, ps: seq<Pair>, bodies: seq<seq<T>>)
    requires i < |lines| && |ps| == |bodies| && Ordered(ps, i + 1, |lines|)
    ensures Ordered(ps, i, |lines|) && Spliced(lines, i, ps, bodies) == [lines[i]] + Spliced(lines, i + 1, ps, bodies)
  {
  }

  lemma SplicedBegin<T>(lines: seq<T>, ps: seq<Pair>, bodies: seq<seq<T>>)
    requires ps != [] && |ps| == |bodies| && ps[0].begin <= |lines| && Ordered(ps, ps[0].begin, |lines|)
    ensures Spliced(lines, ps[0].begin, ps, bodies)
         == [lines[ps[0].begin]] + (bodies[0] + Spliced(lines, ps[0].end, ps[1..], bodies[1..]))
  {
    hide Ordered;
    var b := ps[0].begin;
    OrderedStep(ps, b, |lines|);
    assert lines[b..b + 1] == [lines[b]];
  }

  // ---------------------------------------------------------------------------------------
  // Splicing is patching

  /** One step of patching. */
  lemma PatchedPlain(lines: seq<string>, gens: seq<seq<string>>)
    requires lines != [] && !Opens(lines[0])
    ensures Patched(lines, gens) == (match Patched(lines[1..], gens) case None => None case Some(r) => Some([lines[0]] + r))
  {
    hide Has, FindClose;
  }

  lemma PatchedBlock(lines: seq<string>, gens: seq<seq<string>>)
    requires lines != [] && Opens(lines[0])
    ensures gens == [] || FindClose(lines, 1).None? ==> Patched(lines, gens).None?
    ensures gens != [] && FindClose(lines, 1).Some? ==>
      var j := FindClose(lines, 1).value;
      Patched(lines, gens) ==
        (match Patched(lines[j + 1..], gens[1..]) case None => None case Some(r) => Some([lines[0]] + gens[0] + [lines[j]] + r))
  {
    hide Has, FindClose;
  }

  lemma PatchedEmpty(gens: seq<seq<string>>)
    ensures Patched([], gens) == if gens == [] then Some([]) else None
  {
  }

  lemma PairsPlain(lines: seq<string>, i: nat)
    requires i < |lines| && !Opens(lines[i])
    ensures FindPairs(lines, i) == FindPairs(lines, i + 1)
  {
    hide Has, FindClose;
  }

  lemma PairsBlock(lines: seq<string>, i: nat)
    requires i < |lines| && Opens(lines[i])
    ensures FindClose(lines, i + 1).None? ==> FindPairs(lines, i).None?
    ensures FindClose(lines, i + 1).Some? ==>
      var j := FindClose(lines, i + 1).value;
      FindPairs(lines, i) == (match FindPairs(lines, j + 1) case None => None case Some(ps) => Some([Pair(i, j)] + ps))
  {
    hide Has, FindClose;
  }

  lemma PairsEnd(lines: seq<string>)
    ensures FindPairs(lines, |lines|) == Some([])
  {
  }

  lemma {:induction false} CloseShift(lines: seq<string>, i: nat, j: nat)
    requires i <= j <= |lines|
    ensures match FindClose(lines, j)
            case None => FindClose(lines[i..], j - i).None?
            case Some(c) => FindClose(lines[i..], j - i) == Some(c - i)
    decreases |lines| - j
  {
    hide Has;
    if j < |lines| {
      assert lines[i..][j - i] == lines[j];
      CloseShift(lines, i, j + 1);
    }
  }

  /** The pairs found, spliced, are the front-to-back patch; no pairs or another number, no patch. */
  lemma {:induction false} SplicedIsPatched(lines: seq<string>, i: nat, gens: seq<seq<string>>)
    requires i <= |lines|
    ensures match FindPairs(lines, i)
            case None => Patched(lines[i..], gens).None?
            case Some(ps) =>
              if |ps| != |gens| then Patched(lines[i..], gens).None?
              else Ordered(ps, i, |lines|) && Patched(lines[i..], gens) == Some(Spliced(lines, i, ps, gens))
    decreases |lines| - i
  {
    hide Has, FindClose, Patched, FindPairs, Spliced, Ordered;
    var rest := lines[i..];
    if i == |lines| {
      assert rest == [];
      PairsEnd(lines);
      PatchedEmpty(gens);
      if gens == [] {
        SplicedNone(lines, i, gens);
      }
    } else if !Opens(lines[i]) {
      SplicedIsPatched(lines, i + 1, gens);
      assert rest[0] == lines[i] && rest[1..] == lines[i + 1..];
      PatchedPlain(rest, gens);
      PairsPlain(lines, i);
      match FindPairs(lines, i)
      case None =>
      case Some(ps) =>
        if |ps| == |gens| {
          SplicedKeep(lines, i, ps, gens);
        }
    } else {
      CloseShift(lines, i, i + 1);
      assert rest[0] == lines[i];
      PatchedBlock(rest, gens);
      PairsBlock(lines, i);
      if gens != [] && FindClose(lines, i + 1).Some? {
        var j := FindClose(lines, i + 1).value;
        SplicedIsPatched(lines, j + 1, gens[1..]);
        assert rest[j - i + 1..] == lines[j + 1..] && rest[j - i] == lines[j];
        BlockHead(lines, i, j, gens);
      }
    }
  }

  lemma SplicedNone<T>(lines: seq<T>, i: nat, bodies: seq<seq<T>>)
    requires i <= |lines| && bodies == []
    ensures Ordered([], i, |lines|) && Spliced(lines, i, [], bodies) == lines[i..]
  {
  }

  lemma BlockHead(lines: seq<string>, i: nat, j: nat, gens: seq<seq<string>>)
    requires i < j < |lines| && gens != []
    ensures match FindPairs(lines, j + 1)
            case None => true
            case Some(ps) => |ps| + 1 == |gens| && Ordered(ps, j + 1, |lines|) ==>
              && Ordered([Pair(i, j)] + ps, i, |lines|)
              && Spliced(lines, i, [Pair(i, j)] + ps, gens) == [lines[i]] + gens[0] + [lines[j]] + Spliced(lines, j + 1, ps, gens[1..])
  {
    hide Has, FindPairs, FindClose;
    match FindPairs(lines, j + 1)
    case None =>
    case Some(ps) =>
      if |ps| + 1 == |gens| && Ordered(ps, j + 1, |lines|) {
        var all := [Pair(i, j)] + ps;
        assert all[1..] == ps;
        SplicedKeep(lines, j, ps, gens[1..]);
        SplicedBegin(lines, all, gens);
      }
  }

  /** A patch that succeeds is the splice at the pairs found. */
  lemma PatchedPairs(lines: seq<string>, gens: seq<seq<string>>)
    ensures Patched(lines, gens).Some? <==> FindPairs(lines, 0).Some? && |FindPairs(lines, 0).value| == |gens|
    ensures Patched(lines, gens).Some? ==>
      && Ordered(FindPairs(lines, 0).value, 0, |lines|)
      && Patched(lines, gens).value == Spliced(lines, 0, FindPairs(lines, 0).value, gens)
  {
    hide Has, FindPairs, Patched, Spliced, Ordered;
    SplicedIsPatched(lines, 0, gens);
    assert lines[0..] == lines;
  }

  // ---------------------------------------------------------------------------------------
  // Where everything goes

  /** Block k of the lines that no patch replaces: from the end marker of the pair before it to the begin
      marker of pair k; the last block runs to the end. */
  function BlockStart(ps: seq<Pair>, i: nat, k: nat): nat
    requires k <= |ps|
  {
    if k == 0 then i else ps[k - 1].end
  }
  function BlockStop(ps: seq<Pair>, n: nat, k: nat): nat
    requires k <= |ps|
  {
    if k < |ps| then ps[k].begin + 1 else n
  }

  /** By how much the first k bodies grow. */
  function Growth<T>(ps: seq<Pair>, bodies: seq<seq<T>>, k: nat): int
    requires k <= |ps| == |bodies|
  {
    if k == 0 then 0 else |bodies[0]| - (ps[0].end - ps[0].begin - 1) + Growth(ps[1..], bodies[1..], k - 1)
  }

  /** Every block is kept and every body put in, each at its place. */
  ghost predicate PlacedAt<T>(out: seq<T>, lines: seq<T>, i: nat, ps: seq<Pair>, bodies: seq<seq<T>>, k: nat)
    requires i <= |lines| && k <= |ps| == |bodies| && Ordered(ps, i, |lines|)
  {
    var d, lo, hi := Growth(ps, bodies, k) - i, BlockStart(ps, i, k), BlockStop(ps, |lines|, k);
    && i <= lo <= hi <= |lines|
    && 0 <= lo + d <= hi + d <= |out| && out[lo + d..hi + d] == lines[lo..hi]
    && (k < |ps| ==> hi + d + |bodies[k]| <= |out| && out[hi + d..hi + d + |bodies[k]|] == bodies[k])
    && (k == |ps| ==> hi + d == |out|)
  }

  lemma SliceBehind<T>(front: seq<T>, rest: seq<T>, lo: nat, hi: nat)
    requires lo <= hi <= |rest|
    ensures (front + rest)[|front| + lo..|front| + hi] == rest[lo..hi]
  {
  }

  lemma SplicedFront<T>(lines: seq<T>, i: nat, ps: seq<Pair>, bodies: seq<seq<T>>)
    requires i <= |lines| && 0 < |ps| == |bodies| && Ordered(ps, i, |lines|)
    ensures Spliced(lines, i, ps, bodies)
         == (lines[i..ps[0].begin + 1] + bodies[0]) + Spliced(lines, ps[0].end, ps[1..], bodies[1..])
  {
  }

  lemma PlacedFirst<T>(lines: seq<T>, i: nat, ps: seq<Pair>, bodies: seq<seq<T>>)
    requires i <= |lines| && |ps| == |bodies| && Ordered(ps, i, |lines|)
    ensures PlacedAt(Spliced(lines, i, ps, bodies), lines, i, ps, bodies, 0)
  {
    hide Spliced, Ordered, Growth;
    GrowthNone(ps, bodies);
    if ps == [] {
      SplicedNone(lines, i, bodies);
    } else {
      OrderedStep(ps, i, |lines|);
      SplicedFront(lines, i, ps, bodies);
      Slices(lines[i..ps[0].begin + 1], bodies[0], Spliced(lines, ps[0].end, ps[1..], bodies[1..]));
    }
  }

  lemma GrowthNone<T>(ps: seq<Pair>, bodies: seq<seq<T>>)
    requires |ps| == |bodies|
    ensures Growth(ps, bodies, 0) == 0
  {
  }

  lemma Slices<T>(a: seq<T>, b: seq<T>, c: seq<T>)
    ensures var s := (a + b) + c; s[0..|a|] == a && s[|a|..|a| + |b|] == b
  {
  }

  lemma PlacedBehind<T>(front: seq<T>, rest: seq<T>, lines: seq<T>, i: nat, ps: seq<Pair>, bodies: seq<seq<T>>, k: nat)
    requires i <= |lines| && 1 <= k <= |ps| == |bodies| && Ordered(ps, i, |lines|)
    requires |front| == ps[0].begin + 1 - i + |bodies[0]|
    requires PlacedAt(rest, lines, ps[0].end, ps[1..], bodies[1..], k - 1)
    ensures PlacedAt(front + rest, lines, i, ps, bodies, k)
  {
    hide Growth, Ordered, BlockStart, BlockStop;
    var e := ps[0].end;
    OrderedStep(ps, i, |lines|);
    var g := Growth(ps[1..], bodies[1..], k - 1) - e;
    GrowthStep(ps, bodies, k);
    assert Growth(ps, bodies, k) - i == g + |front|;
    var lo, hi := BlockStart(ps, i, k), BlockStop(ps, |lines|, k);
    BlockShift(ps, i, |lines|, k);
    BlockBehind(front, rest, lines, lo, hi, g);
    if k < |ps| {
      assert bodies[1..][k - 1] == bodies[k];
      SliceBehind(front, rest, hi + g, hi + g + |bodies[k]|);
    }
  }

  lemma BlockShift(ps: seq<Pair>, i: nat, n: nat, k: nat)
    requires 1 <= k <= |ps|
    ensures BlockStart(ps[1..], ps[0].end, k - 1) == BlockStart(ps, i, k)
    ensures BlockStop(ps[1..], n, k - 1) == BlockStop(ps, n, k)
  {
  }

  lemma BlockBehind<T>(front: seq<T>, rest: seq<T>, lines: seq<T>, lo: nat, hi: nat, g: int)
    requires lo <= hi <= |lines| && 0 <= lo + g <= hi + g <= |rest| && rest[lo + g..hi + g] == lines[lo..hi]
    ensures (front + rest)[lo + (g + |front|)..hi + (g + |front|)] == lines[lo..hi]
  {
    SliceBehind(front, rest, lo + g, hi + g);
  }

  lemma GrowthStep<T>(ps: seq<Pair>, bodies: seq<seq<T>>, k: nat)
    requires 1 <= k <= |ps| == |bodies|
    ensures Growth(ps, bodies, k) == |bodies[0]| - (ps[0].end - ps[0].begin - 1) + Growth(ps[1..], bodies[1..], k - 1)
  {
  }

  lemma {:induction false} SplicedPlaces<T>(lines: seq<T>, i: nat, ps: seq<Pair>, bodies: seq<seq<T>>, k: nat)
    requires i <= |lines| && k <= |ps| == |bodies| && Ordered(ps, i, |lines|)
    ensures PlacedAt(Spliced(lines, i, ps, bodies), lines, i, ps, bodies, k)
    decreases k
  {
    hide Spliced, PlacedAt;
    if k == 0 {
      PlacedFirst(lines, i, ps, bodies);
    } else {
      SplicedPlaces(lines, ps[0].end, ps[1..], bodies[1..], k - 1);
      SplicedFront(lines, i, ps, bodies);
      PlacedBehind(lines[i..ps[0].begin + 1] + bodies[0], Spliced(lines, ps[0].end, ps[1..], bodies[1..]),
                   lines, i, ps, bodies, k);
    }
  }

  // ---------------------------------------------------------------------------------------
  // Splicing commutes with what is done to every line

  function FedAll(gens: seq<seq<string>>): (r: seq<seq<Line>>)
    ensures |r| == |gens|
  {
    seq(|gens|, k requires 0 <= k < |gens| => Fed(gens[k]))
  }

  function FileRawAll(gens: seq<seq<string>>): (r: seq<seq<Line>>)
    ensures |r| == |gens|
  {
    seq(|gens|, k requires 0 <= k < |gens| => FileRaw(gens[k]))
  }

  /** The lines of the file that each generator makes. */
  function FileLinesAll(gens: seq<seq<string>>): (r: seq<seq<string>>)
    ensures |r| == |gens|
  {
    seq(|gens|, k requires 0 <= k < |gens| => FileLines(gens[k]))
  }

  lemma {:induction false} FedSpliced(lines: seq<string>, i: nat, ps: seq<Pair>, gens: seq<seq<string>>)
    requires i <= |lines| && |ps| == |gens| && Ordered(ps, i, |lines|)
    ensures Fed(Spliced(lines, i, ps, gens)) == Spliced(Fed(lines), i, ps, FedAll(gens))
    decreases |ps|
  {
    hide Fed;
    if ps == [] {
      FedSlice(lines, i, |lines|);
      assert lines[i..|lines|] == lines[i..] && Fed(lines)[i..|lines|] == Fed(lines)[i..];
    } else {
      var front, rest := lines[i..ps[0].begin + 1], Spliced(lines, ps[0].end, ps[1..], gens[1..]);
      FedSpliced(lines, ps[0].end, ps[1..], gens[1..]);
      assert FedAll(gens)[1..] == FedAll(gens[1..]);
      FedConcat(front, gens[0] + rest);
      FedConcat(gens[0], rest);
      FedSlice(lines, i, ps[0].begin + 1);
    }
  }

  lemma {:induction false} FileRawSpliced(lines: seq<string>, i: nat, ps: seq<Pair>, gens: seq<seq<string>>)
    requires Plain(lines) && i <= |lines| && |ps| == |gens| && Ordered(ps, i, |lines|)
    ensures FileRaw(Spliced(lines, i, ps, gens)) == Spliced(Fed(lines), i, ps, FileRawAll(gens))
    decreases |ps|
  {
    hide FileRaw, NoBreak, Fed;
    if ps == [] {
      FileRawOfPlain(lines[i..]);
      FedSlice(lines, i, |lines|);
      assert lines[i..|lines|] == lines[i..] && Fed(lines)[i..|lines|] == Fed(lines)[i..];
    } else {
      var front := lines[i..ps[0].begin + 1];
      var rest := Spliced(lines, ps[0].end, ps[1..], gens[1..]);
      FileRawSpliced(lines, ps[0].end, ps[1..], gens[1..]);
      assert FileRawAll(gens)[1..] == FileRawAll(gens[1..]);
      FileRawConcat(front, gens[0] + rest);
      FileRawConcat(gens[0], rest);
      FileRawOfPlain(front);
      FedSlice(lines, i, ps[0].begin + 1);
    }
  }

  lemma {:induction false} TextsSpliced(lines: seq<Line>, i: nat, ps: seq<Pair>, gens: seq<seq<string>>)
    requires i <= |lines| && |ps| == |gens| && Ordered(ps, i, |lines|)
    ensures Texts(Spliced(lines, i, ps, FileRawAll(gens))) == Spliced(Texts(lines), i, ps, FileLinesAll(gens))
    decreases |ps|
  {
    hide FileRaw, Texts;
    if ps == [] {
      TextsSlice(lines, i, |lines|);
      assert lines[i..|lines|] == lines[i..] && Texts(lines)[i..|lines|] == Texts(lines)[i..];
    } else {
      var front, body := lines[i..ps[0].begin + 1], FileRaw(gens[0]);
      var rest := Spliced(lines, ps[0].end, ps[1..], FileRawAll(gens[1..]));
      TextsSpliced(lines, ps[0].end, ps[1..], gens[1..]);
      assert FileRawAll(gens)[1..] == FileRawAll(gens[1..]);
      assert FileLinesAll(gens)[1..] == FileLinesAll(gens[1..]);
      TextsConcat(front, body + rest);
      TextsConcat(body, rest);
      TextsSlice(lines, i, ps[0].begin + 1);
    }
  }

  /** The lines of a patched file: patching the lines with what the generators make in a file. */
  lemma FileLinesPatched(lines: seq<string>, gens: seq<seq<string>>)
    requires Plain(lines)
    ensures Patched(lines, gens).Some? <==> Patched(lines, FileLinesAll(gens)).Some?
    ensures Patched(lines, gens).Some? ==>
      FileLines(Patched(lines, gens).value) == Patched(lines, FileLinesAll(gens)).value
  {
    hide FindPairs, Patched, Spliced, Ordered, FileRaw, NoBreak;
    PatchedPairs(lines, gens);
    PatchedPairs(lines, FileLinesAll(gens));
    if Patched(lines, gens).Some? {
      var ps := FindPairs(lines, 0).value;
      FileRawSpliced(lines, 0, ps, gens);
      TextsSpliced(Fed(lines), 0, ps, gens);
      assert Texts(Fed(lines)) == lines;
    }
  }
}
