/** The patcher's two routines as loops over the lines, against the front-to-back definition. */
module Patcher {
  import opened Options
  import opened PatcherModel
  import opened PatcherText
  import opened PatcherSplice

  /** Scan for pairs with two indices; none on a nested or unterminated block. */
  method FindTagPairs(lines: seq<string>) returns (r: Option<seq<Pair>>)
    ensures r == FindPairs(lines, 0)
  {
    hide Has;
    var pairs: seq<Pair> := [];
    var i, n := 0, |lines|;
    PrependNothing(FindPairs(lines, 0));
    while i < n
      invariant i <= n
      invariant FindPairs(lines, 0) == Prepend(pairs, FindPairs(lines, i))
    {
      if Opens(lines[i]) {
        var begin := i;
        var j := i + 1;
        while j < n && !Closes(lines[j])
          invariant i + 1 <= j <= n
          invariant FindClose(lines, i + 1) == FindClose(lines, j)
        {
          if Opens(lines[j]) {
            return None;
          }
          j := j + 1;
        }
        if j == n {
          return None;
        }
        FoundPair(lines, begin, j, pairs);
        pairs := pairs + [Pair(begin, j)];
        i := j + 1;
      } else {
        i := i + 1;
      }
    }
    assert pairs + [] == pairs;
    return Some(pairs);
  }

  function Prepend(pairs: seq<Pair>, r: Option<seq<Pair>>): Option<seq<Pair>> {
    match r case None => None case Some(ps) => Some(pairs + ps)
  }

  lemma PrependNothing(r: Option<seq<Pair>>)
    ensures Prepend([], r) == r
  {
    if r.Some? {
      assert [] + r.value == r.value;
    }
  }

  lemma FoundPair(lines: seq<string>, i: nat, j: nat, pairs: seq<Pair>)
    requires i < j < |lines| && Opens(lines[i]) && FindClose(lines, i + 1) == Some(j)
    ensures Prepend(pairs, FindPairs(lines, i)) == Prepend(pairs + [Pair(i, j)], FindPairs(lines, j + 1))
  {
    hide Has;
    match FindPairs(lines, j + 1)
    case None =>
    case Some(ps) =>
      assert pairs + ([Pair(i, j)] + ps) == (pairs + [Pair(i, j)]) + ps;
  }

  lemma SplicedFrom(lines: seq<string>, ps: seq<Pair>, gens: seq<seq<string>>, e: nat)
    requires |ps| == |gens| && e <= |lines| && Ordered(ps, e, |lines|) && Ordered(ps, 0, |lines|)
    ensures Spliced(lines, 0, ps, gens) == lines[..e] + Spliced(lines, e, ps, gens)
  {
    if ps != [] {
      var x := ps[0].begin + 1;
      SplitAt(lines, e, x);
      Associate(lines[..e], lines[e..x], gens[0] + Spliced(lines, ps[0].end, ps[1..], gens[1..]));
    } else {
      assert lines[0..] == lines[..e] + lines[e..];
    }
  }

  lemma SplitAt(s: seq<string>, e: nat, x: nat)
    requires e <= x <= |s|
    ensures s[0..x] == s[..e] + s[e..x]
  {
  }

  /** Everything before the first pair is untouched. */
  lemma SplicedPrefix(lines: seq<string>, ps: seq<Pair>, gens: seq<seq<string>>, b: nat, e: nat)
    requires |ps| == |gens| && b < e <= |lines| && Ordered(ps, e, |lines|) && Ordered(ps, 0, |lines|)
    ensures var s := Spliced(lines, 0, ps, gens);
      |s| >= e && s[..b + 1] == lines[..b + 1] && s[e..] == Spliced(lines, e, ps, gens)
  {
    hide Ordered, Spliced;
    SplicedFrom(lines, ps, gens, e);
    var s, q := Spliced(lines, 0, ps, gens), Spliced(lines, e, ps, gens);
    assert s[e..] == q;
    assert s[..b + 1] == lines[..e][..b + 1] == lines[..b + 1];
  }

  /** Patching a file as read: back to front, so that an earlier pair's indices stay valid. Returns the
      new text and whether it differs. */
  method PatchFile(raw: string, gens: seq<seq<string>>) returns (r: Option<(string, bool)>)
    ensures r == match PatchText(ReadText(raw), gens)
                 case None => None
                 case Some(t) => Some((t, t != ReadText(raw)))
  {
    hide Has, Lines, FindPairs, Patched, ReadText, SplitLines, JoinLines;
    var text := ReadText(raw);
    var lines := SplitLines(text);
    var found := FindTagPairs(lines);
    SplicedIsPatched(lines, 0, gens);
    assert lines[0..] == lines;
    if found.None? {
      return None;
    }
    var pairs := found.value;
    if |pairs| != |gens| {
      return None;
    }
    var newLines := lines;
    var k := |pairs|;
    assert pairs[k..] == [] && gens[k..] == [];
    while k > 0
      invariant k <= |pairs|
      invariant Ordered(pairs[k..], 0, |lines|) && newLines == Spliced(lines, 0, pairs[k..], gens[k..])
    {
      k := k - 1;
      var begin, end := pairs[k].begin, pairs[k].end;
      OrderedLater(pairs, 0, k, |lines|);
      SplicedPrefix(lines, pairs[k + 1..], gens[k + 1..], begin, end);
      assert pairs[k..][1..] == pairs[k + 1..] && gens[k..][1..] == gens[k + 1..];
      newLines := newLines[..begin + 1] + gens[k] + newLines[end..];
    }
    assert pairs[0..] == pairs && gens[0..] == gens;
    var newText := JoinLines(newLines);
    return Some((newText, newText != text));
  }

  /** One file of a run: written only if the new text differs, left as it is after an error. */
  method UpdateFile(raw: string, gens: seq<seq<string>>) returns (ok: bool, file: string)
    ensures AfterRun(raw, gens) == if ok then Some(file) else None
    ensures !ok ==> file == raw
  {
    hide PatchText, ReadText;
    var patched := PatchFile(raw, gens);
    ok, file := patched.Some?, raw;
    if ok && patched.value.1 {
      file := patched.value.0;
    }
  }
}
