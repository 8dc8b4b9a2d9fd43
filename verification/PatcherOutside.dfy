/** What a patch leaves alone: on lines everything outside the bodies, at its shifted place; on text
    exactly the lines that end in one line feed. */
module PatcherOutside {
  import opened Options
  import opened PatcherModel
  import opened PatcherText
  import opened PatcherSplice
  import opened PatcherProof

  /** Only lines strictly between marker pairs change: block k of the other lines stands where it stood,
      shifted by the growth of the bodies before it, with body k behind it and nothing after the last. */
  lemma OutsideUnchanged(lines: seq<string>, gens: seq<seq<string>>, k: nat)
    requires Patched(lines, gens).Some? && k <= |gens|
    ensures FindPairs(lines, 0).Some?
    ensures var ps, out := FindPairs(lines, 0).value, Patched(lines, gens).value;
      && |ps| == |gens| && Ordered(ps, 0, |lines|)
      && var d, lo, hi := Growth(ps, gens, k), BlockStart(ps, 0, k), BlockStop(ps, |lines|, k);
      && lo <= hi <= |lines| && 0 <= lo + d <= hi + d <= |out|
      && out[lo + d..hi + d] == lines[lo..hi]
      && (k < |gens| ==> hi + d + |gens[k]| <= |out| && out[hi + d..hi + d + |gens[k]|] == gens[k])
      && (k == |gens| ==> hi + d == |out|)
  {
    hide FindPairs, Patched, Spliced, Ordered, Growth, BlockStart, BlockStop;
    PatchedPairs(lines, gens);
    SplicedPlaces(lines, 0, FindPairs(lines, 0).value, gens, k);
  }

  // ---------------------------------------------------------------------------------------
  // Text

  /** Line k lies in no body. */
  predicate Outside(ps: seq<Pair>, k: nat) { forall m :: 0 <= m < |ps| ==> !(ps[m].begin < k < ps[m].end) }

  /** From line i on, each line outside the bodies ends in exactly one line feed. */
  ghost predicate OutsideFed(ls: seq<Line>, i: nat, ps: seq<Pair>) {
    forall k :: i <= k < |ls| && Outside(ps, k) ==> ls[k].ending == "\n"
  }

  lemma OutsideKeep(ls: seq<Line>, i: nat, ps: seq<Pair>)
    requires i < |ls| && Ordered(ps, i, |ls|)
    ensures OutsideFed(ls, i, ps) <==> ls[i].ending == "\n" && OutsideFed(ls, i + 1, ps)
  {
    forall m | 0 <= m < |ps|
      ensures i <= ps[m].begin
    {
      OrderedLater(ps, i, m, |ls|);
    }
    assert Outside(ps, i);
  }

  lemma OutsideBegin(ls: seq<Line>, ps: seq<Pair>)
    requires ps != [] && ps[0].begin <= |ls| && Ordered(ps, ps[0].begin, |ls|)
    ensures OutsideFed(ls, ps[0].begin, ps) <==> ls[ps[0].begin].ending == "\n" && OutsideFed(ls, ps[0].end, ps[1..])
  {
    hide Ordered;
    var b, e := ps[0].begin, ps[0].end;
    OrderedStep(ps, b, |ls|);
    OutsideKeep(ls, b, ps) by { assert Ordered(ps, b, |ls|); }
    forall k | e <= k < |ls|
      ensures Outside(ps, k) <==> Outside(ps[1..], k)
    {
      assert forall m :: 1 <= m < |ps| ==> ps[m] == ps[1..][m - 1];
    }
    forall k | b < k < e
      ensures !Outside(ps, k)
    {
      assert ps[0].begin < k < ps[0].end;
    }
    assert OutsideFed(ls, b + 1, ps) <==> OutsideFed(ls, e, ps);
    assert OutsideFed(ls, e, ps) <==> OutsideFed(ls, e, ps[1..]);
  }

  /** Two texts that start with the same line, one with a line feed and one with an ending of its own. */
  lemma SameStart(l: Line, last: bool, p: string, q: string)
    requires WellEnded(l, last) && (last ==> q == "")
    ensures Line(l.text, "\n").Whole() + p == l.Whole() + q <==> l.ending == "\n" && p == q
  {
    hide NoBreak;
    var a, b := Line(l.text, "\n").Whole() + p, l.Whole() + q;
    var n := |l.text|;
    assert a[n..] == "\n" + p && b[n..] == l.ending + q;
    assert a[..n] == l.text == b[..n];
    if l.ending == "\n" {
      assert ("\n" + p)[1..] == p && ("\n" + q)[1..] == q;
    } else if l.ending != "" {
      assert ("\n" + p)[0] != (l.ending + q)[0];
    } else {
      assert l.ending + q == "" && |"\n" + p| > 0;
    }
  }

  lemma SameBehind(a: string, p: string, q: string)
    ensures a + p == a + q <==> p == q
  {
    assert (a + p)[|a|..] == p && (a + q)[|a|..] == q;
  }

  /** With bodies put between the same lines, ended by line feeds or as they were: the texts agree exactly
      when all lines outside the bodies end in one line feed. */
  lemma {:induction false} SplicedSame(ls: seq<Line>, i: nat, ps: seq<Pair>, bodies: seq<seq<Line>>)
    requires AllWellEnded(ls) && i <= |ls| && |ps| == |bodies| && Ordered(ps, i, |ls|)
    ensures Raw(Spliced(Fed(Texts(ls)), i, ps, bodies)) == Raw(Spliced(ls, i, ps, bodies)) <==> OutsideFed(ls, i, ps)
    decreases |ls| - i
  {
    hide WellEnded, Ordered, Spliced, Raw, Outside, OutsideFed, Line.Whole;
    var fs := Fed(Texts(ls));
    if i == |ls| {
      NoneLeft(ls, ps);
      SplicedNone(ls, i, bodies);
      SplicedNone(fs, i, bodies);
      assert ls[i..] == fs[i..] == [];
    } else if ps != [] && ps[0].begin == i {
      var e := ps[0].end;
      OrderedStep(ps, i, |ls|);
      SplicedSame(ls, e, ps[1..], bodies[1..]);
      OutsideBegin(ls, ps);
      SplicedBegin(ls, ps, bodies);
      SplicedBegin(fs, ps, bodies);
      var p, q := Spliced(fs, e, ps[1..], bodies[1..]), Spliced(ls, e, ps[1..], bodies[1..]);
      RawStep(fs[i], bodies[0] + p);
      RawStep(ls[i], bodies[0] + q);
      RawConcat(bodies[0], p);
      RawConcat(bodies[0], q);
      assert WellEnded(ls[i], false);
      SameStart(ls[i], false, Raw(bodies[0]) + Raw(p), Raw(bodies[0]) + Raw(q));
      SameBehind(Raw(bodies[0]), Raw(p), Raw(q));
    } else {
      KeepFirst(ps, i, |ls|);
      SplicedSame(ls, i + 1, ps, bodies);
      OutsideKeep(ls, i, ps);
      SplicedKeep(ls, i, ps, bodies);
      SplicedKeep(fs, i, ps, bodies);
      var p, q := Spliced(fs, i + 1, ps, bodies), Spliced(ls, i + 1, ps, bodies);
      RawStep(fs[i], p);
      RawStep(ls[i], q);
      if i == |ls| - 1 {
        NoneLeft(ls, ps);
        SplicedNone(ls, i + 1, bodies);
        assert ls[i + 1..] == [];
        RawNone();
      }
      SameStart(ls[i], i == |ls| - 1, Raw(p), Raw(q));
    }
  }

  lemma RawNone()
    ensures Raw([]) == ""
  {
  }

  lemma NoneLeft(ls: seq<Line>, ps: seq<Pair>)
    ensures Ordered(ps, |ls|, |ls|) ==> ps == []
    ensures |ls| > 0 && Ordered(ps, |ls| - 1, |ls|) ==> ps == []
    ensures OutsideFed(ls, |ls|, ps)
  {
  }

  lemma KeepFirst(ps: seq<Pair>, i: nat, n: nat)
    requires i < n && Ordered(ps, i, n) && (ps == [] || ps[0].begin != i)
    ensures Ordered(ps, i + 1, n)
  {
  }

  /** A text with the bodies between its markers replaced and not a character of the rest touched. */
  function BodiesReplaced(text: string, ps: seq<Pair>, gens: seq<seq<string>>): string
    requires |ps| == |gens| && Ordered(ps, 0, |Lines(text)|)
  {
    Raw(Spliced(Lines(text), 0, ps, FedAll(gens)))
  }

  /** The pairs of a text that is patched. */
  function PairsOf(text: string, gens: seq<seq<string>>): (ps: seq<Pair>)
    requires PatchText(text, gens).Some?
    ensures |ps| == |gens| && Ordered(ps, 0, |Lines(text)|) && FindPairs(SplitLines(text), 0) == Some(ps)
  {
    PatchedPairs(SplitLines(text), gens);
    FindPairs(SplitLines(text), 0).value
  }

  /** The patched text, line by line. */
  lemma PatchedRaw(text: string, gens: seq<seq<string>>)
    requires PatchText(text, gens).Some? && text != ""
    ensures PatchText(text, gens).value
         == Raw(Spliced(Fed(SplitLines(text)), 0, PairsOf(text, gens), FedAll(gens)))
  {
    hide Lines, FindPairs, Patched, Spliced, Ordered, Fed, JoinLines;
    var lines := SplitLines(text);
    SplitIsPlain(text);
    PatchedPairs(lines, gens);
    PatchedNonEmpty(lines, gens);
    JoinIsRaw(Patched(lines, gens).value);
    FedSpliced(lines, 0, PairsOf(text, gens), gens);
  }

  /** Patching replaces the bodies and reproduces every character around them exactly when the text is not
      empty and each line outside the bodies, the last one included, ends in exactly one line feed. */
  lemma OutsideText(text: string, gens: seq<seq<string>>)
    requires PatchText(text, gens).Some?
    ensures var ps := PairsOf(text, gens);
      PatchText(text, gens).value == BodiesReplaced(text, ps, gens) <==> text != "" && OutsideFed(Lines(text), 0, ps)
  {
    hide Lines, Spliced, Ordered, Fed, Texts, Outside, OutsideFed, WellEnded;
    var ps := PairsOf(text, gens);
    LinesWellEnded(text);
    if text == "" {
      hide FindPairs, Patched;
      EmptyGrows(gens);
    } else {
      PatchedRaw(text, gens);
      SplicedSame(Lines(text), 0, ps, FedAll(gens));
    }
  }

  /** An empty file becomes a line feed. */
  lemma EmptyGrows(gens: seq<seq<string>>)
    requires PatchText("", gens).Some?
    ensures PatchText("", gens).value == "\n" && BodiesReplaced("", PairsOf("", gens), gens) == ""
  {
    hide Has, Lines;
    NoLines();
    PatchedEmpty(gens);
  }

  /** Joining what was split reproduces a text exactly when its last character is a line feed and no other
      character ends a line. */
  lemma JoinOfSplit(text: string)
    ensures JoinLines(SplitLines(text)) == text <==> Normal(text)
  {
    hide Lines, JoinLines, Spliced, Normal, WellEnded;
    NormalEndings(text);
    LinesWellEnded(text);
    if text == "" {
      NoLines();
      JoinNotEmpty([]);
    } else {
      var ls := Lines(text);
      JoinIsRaw(SplitLines(text));
      SplicedSame(ls, 0, [], []);
      SplicedNone(ls, 0, []);
      SplicedNone(Fed(Texts(ls)), 0, []);
      assert ls[0..] == ls && Fed(Texts(ls))[0..] == Fed(Texts(ls));
      RawOfLines(text);
      assert OutsideFed(ls, 0, []) <==> EndFed(ls) by { AllOutside(ls); }
    }
  }

  lemma AllOutside(ls: seq<Line>)
    ensures OutsideFed(ls, 0, []) <==> EndFed(ls)
  {
    assert forall k: nat :: Outside([], k);
  }

  // ---------------------------------------------------------------------------------------
  // When nothing changes

  /** The text between the markers of pair k. */
  function BodyText(text: string, ps: seq<Pair>, k: nat): string
    requires k < |ps| && Ordered(ps, 0, |Lines(text)|)
  {
    OrderedLater(ps, 0, k, |Lines(text)|);
    Raw(Lines(text)[ps[k].begin + 1..ps[k].end])
  }

  /** Every body is what its generator makes. */
  ghost predicate UpToDate(ls: seq<Line>, i: nat, ps: seq<Pair>, bodies: seq<seq<Line>>)
    requires i <= |ls| && |ps| == |bodies| && Ordered(ps, i, |ls|)
    decreases |ps|
  {
    ps == [] || (Raw(ls[ps[0].begin + 1..ps[0].end]) == Raw(bodies[0]) && UpToDate(ls, ps[0].end, ps[1..], bodies[1..]))
  }

  lemma {:induction false} UpToDateAll(ls: seq<Line>, i: nat, ps: seq<Pair>, bodies: seq<seq<Line>>)
    requires i <= |ls| && |ps| == |bodies| && Ordered(ps, i, |ls|)
    ensures forall k :: 0 <= k < |ps| ==> ps[k].begin < ps[k].end <= |ls|
    ensures UpToDate(ls, i, ps, bodies) <==>
      forall k :: 0 <= k < |ps| ==> Raw(ls[ps[k].begin + 1..ps[k].end]) == Raw(bodies[k])
    decreases |ps|
  {
    hide Raw;
    if ps != [] {
      UpToDateAll(ls, ps[0].end, ps[1..], bodies[1..]);
      assert forall k :: 1 <= k < |ps| ==> ps[k] == ps[1..][k - 1] && bodies[k] == bodies[1..][k - 1];
      assert forall k :: 0 <= k < |ps| - 1 ==> ps[1..][k] == ps[k + 1] && bodies[1..][k] == bodies[k + 1];
    }
  }

  /** Replacing bodies by what they are changes nothing. */
  lemma {:induction false} SplicedUpToDate(ls: seq<Line>, i: nat, ps: seq<Pair>, bodies: seq<seq<Line>>)
    requires i <= |ls| && |ps| == |bodies| && Ordered(ps, i, |ls|) && UpToDate(ls, i, ps, bodies)
    ensures Raw(Spliced(ls, i, ps, bodies)) == Raw(ls[i..])
    decreases |ps|
  {
    hide Raw;
    if ps != [] {
      var b, e := ps[0].begin, ps[0].end;
      var rest := Spliced(ls, e, ps[1..], bodies[1..]);
      SplicedUpToDate(ls, e, ps[1..], bodies[1..]);
      RawConcat(ls[i..b + 1], bodies[0] + rest);
      RawConcat(bodies[0], rest);
      RawConcat(ls[i..b + 1], ls[b + 1..]);
      RawConcat(ls[b + 1..e], ls[e..]);
      assert ls[i..] == ls[i..b + 1] + ls[b + 1..] && ls[b + 1..] == ls[b + 1..e] + ls[e..];
    }
  }

  lemma UnmarkedAt(ls: seq<string>, k: nat)
    requires Unmarked(ls) && k < |ls|
    ensures !Marked(ls[k])
  {
  }

  /** An unmarked prefix ends before the first marked line. */
  lemma MarkAfter(body: seq<string>, c: string, p: seq<string>, other: seq<string>, q: seq<string>)
    requires Unmarked(other) && Marked(c) && body + ([c] + p) == other + q
    ensures |other| <= |body|
  {
    hide Marked, Unmarked;
    var k := |body|;
    assert (body + ([c] + p))[k] == c;
    if k < |other| {
      assert (other + q)[k] == other[k];
      UnmarkedAt(other, k);
      assert false;
    }
  }

  /** Equal lists have their first marked line at the same place. */
  lemma SamePlace(body: seq<string>, other: seq<string>, c: string, p: seq<string>, q: seq<string>)
    requires Unmarked(body) && Unmarked(other) && Marked(c) && body + ([c] + p) == other + ([c] + q)
    ensures body == other && p == q
  {
    hide Marked, Unmarked;
    MarkAfter(body, c, p, other, [c] + q);
    MarkAfter(other, c, q, body, [c] + p);
    var all := body + ([c] + p);
    assert all[..|body|] == body && (other + ([c] + q))[..|other|] == other;
    assert all[|body| + 1..] == p && (other + ([c] + q))[|other| + 1..] == q;
  }

  ghost predicate SameLengths<T>(ps: seq<Pair>, bodies: seq<seq<T>>)
    requires |ps| == |bodies|
  {
    forall k :: 0 <= k < |ps| ==> |bodies[k]| == ps[k].end - ps[k].begin - 1
  }

  /** Clean bodies that patch a file to itself are as long as the ones they replace. */
  lemma {:induction false} FixedLengths(lines: seq<string>, i: nat, ps: seq<Pair>, bodies: seq<seq<string>>)
    requires i <= |lines| && FindPairs(lines, i) == Some(ps) && |ps| == |bodies| && Ordered(ps, i, |lines|)
    requires AllUnmarked(bodies) && Spliced(lines, i, ps, bodies) == lines[i..]
    ensures SameLengths(ps, bodies)
    decreases |lines| - i
  {
    hide Has, FindClose, FindPairs, Ordered, Spliced, Unmarked;
    if i == |lines| {
      PairsEnd(lines);
    } else if !Opens(lines[i]) {
      PairsPlain(lines, i);
      PairsOrdered(lines, i + 1, i + 1);
      SplicedKeep(lines, i, ps, bodies);
      assert lines[i..][1..] == lines[i + 1..];
      FixedLengths(lines, i + 1, ps, bodies);
    } else {
      PairsBlock(lines, i);
      var j := FindClose(lines, i + 1).value;
      var later := FindPairs(lines, j + 1).value;
      assert ps[0] == Pair(i, j) && ps[1..] == later;
      PairsOrdered(lines, j + 1, j + 1);
      SplicedBegin(lines, ps, bodies);
      SplicedKeep(lines, j, later, bodies[1..]);
      var rest := Spliced(lines, j + 1, later, bodies[1..]);
      ClosedBody(lines, i + 1);
      assert lines[i..][1..] == lines[i + 1..j] + ([lines[j]] + lines[j + 1..]);
      assert Spliced(lines, i, ps, bodies)[1..] == bodies[0] + ([lines[j]] + rest);
      SamePlace(bodies[0], lines[i + 1..j], lines[j], rest, lines[j + 1..]);
      FixedLengths(lines, j + 1, later, bodies[1..]);
      assert forall k :: 1 <= k < |ps| ==> ps[k] == later[k - 1] && bodies[k] == bodies[1..][k - 1];
    }
  }

  lemma ClosedBody(lines: seq<string>, i: nat)
    requires i <= |lines| && FindClose(lines, i).Some?
    ensures Unmarked(lines[i..FindClose(lines, i).value])
  {
    hide Has, FindClose;
    var j := FindClose(lines, i).value;
    forall k | 0 <= k < j - i
      ensures !Marked(lines[i..j][k])
    {
      BodyUnmarked(lines, i, i + k);
    }
  }

  /** Lists of lines that make the same file from pieces of the same length have the same pieces. */
  lemma {:induction false} SamePieces(ls: seq<Line>, i: nat, ps: seq<Pair>, bodies: seq<seq<Line>>)
    requires i <= |ls| && |ps| == |bodies| && Ordered(ps, i, |ls|) && SameLengths(ps, bodies)
    requires Spliced(Fed(Texts(ls)), i, ps, bodies) == ls[i..]
    ensures UpToDate(ls, i, ps, bodies)
    decreases |ps|
  {
    hide Raw, Fed, Texts;
    if ps != [] {
      var b, e := ps[0].begin, ps[0].end;
      var front := Fed(Texts(ls))[i..b + 1];
      var rest := Spliced(Fed(Texts(ls)), e, ps[1..], bodies[1..]);
      assert front + (bodies[0] + rest) == ls[i..];
      assert (front + (bodies[0] + rest))[|front|..|front| + |bodies[0]|] == bodies[0];
      assert ls[i..][|front|..|front| + |bodies[0]|] == ls[b + 1..e];
      assert (front + (bodies[0] + rest))[|front| + |bodies[0]|..] == rest;
      assert ls[i..][|front| + |bodies[0]|..] == ls[e..];
      assert forall k :: 0 <= k < |ps| - 1 ==> ps[1..][k] == ps[k + 1] && bodies[1..][k] == bodies[k + 1];
      SamePieces(ls, e, ps[1..], bodies[1..]);
    }
  }

  /** A file is left unchanged exactly when it is not empty, each line outside the bodies ends in exactly
      one line feed, and every body is the text of its generator's lines. */
  lemma UnchangedWhen(text: string, gens: seq<seq<string>>)
    requires PatchText(text, gens).Some?
    ensures var ps := PairsOf(text, gens);
      PatchText(text, gens) == Some(text) <==>
        && text != "" && OutsideFed(Lines(text), 0, ps)
        && forall k :: 0 <= k < |ps| ==> BodyText(text, ps, k) == Raw(Fed(gens[k]))
  {
    hide PatchText, Lines, Raw, Fed, Texts, OutsideFed, Spliced, Ordered, UpToDate, FindPairs, Clean;
    var ps, ls := PairsOf(text, gens), Lines(text);
    OutsideText(text, gens);
    UpToDateAll(ls, 0, ps, FedAll(gens));
    RawOfLines(text);
    assert ls[0..] == ls;
    if UpToDate(ls, 0, ps, FedAll(gens)) {
      SplicedUpToDate(ls, 0, ps, FedAll(gens));
    }
    if PatchText(text, gens) == Some(text) {
      if text == "" {
        EmptyGrows(gens);
      } else {
        StableBodies(text, gens);
        SplicedUpToDate(ls, 0, ps, FedAll(gens));
      }
    }
  }

  lemma UpToDateFed(ls: seq<Line>, ps: seq<Pair>, gens: seq<seq<string>>)
    requires |ps| == |gens| && Ordered(ps, 0, |ls|) && UpToDate(ls, 0, ps, FileRawAll(gens))
    ensures UpToDate(ls, 0, ps, FedAll(gens))
  {
    hide Raw, FileRaw, Fed, Ordered, UpToDate;
    UpToDateAll(ls, 0, ps, FileRawAll(gens));
    UpToDateAll(ls, 0, ps, FedAll(gens));
    forall k | 0 <= k < |gens|
      ensures Raw(FileRawAll(gens)[k]) == Raw(FedAll(gens)[k])
    {
      RawOfFile(gens[k]);
    }
  }

  /** The bodies of a text that patching leaves alone. */
  lemma StableBodies(text: string, gens: seq<seq<string>>)
    requires PatchText(text, gens) == Some(text) && text != ""
    ensures UpToDate(Lines(text), 0, PairsOf(text, gens), FedAll(gens))
  {
    hide PatchText, Lines, Raw, Fed, FileRaw, Patched, Spliced, Ordered, UpToDate, FindPairs, AllUnmarked, SameLengths;
    var ps, ls, lines := PairsOf(text, gens), Lines(text), SplitLines(text);
    var fileGens := FileLinesAll(gens);
    StableIsClean(text, gens);
    PatchedLines(text, gens);
    PatchedPairs(lines, gens);
    PatchedPairs(lines, fileGens);
    assert lines[0..] == lines && ls[0..] == ls;
    FixedLengths(lines, 0, ps, fileGens);
    SplitIsPlain(text);
    FileRawSpliced(lines, 0, ps, gens);
    assert SameLengths(ps, FileRawAll(gens)) by { SameSizes(ps, gens); }
    SamePieces(ls, 0, ps, FileRawAll(gens));
    UpToDateFed(ls, ps, gens);
  }

  lemma SameSizes(ps: seq<Pair>, gens: seq<seq<string>>)
    requires |ps| == |gens| && SameLengths(ps, FileLinesAll(gens))
    ensures SameLengths(ps, FileRawAll(gens))
  {
    hide FileRaw;
    forall k | 0 <= k < |ps|
      ensures |FileRawAll(gens)[k]| == ps[k].end - ps[k].begin - 1
    {
      assert |FileLinesAll(gens)[k]| == |FileRawAll(gens)[k]|;
    }
  }

  // ---------------------------------------------------------------------------------------
  // Files whose surroundings change

  /** A file that ends with its closing marker and no line feed gets one. */
  lemma FinalFeedAdded()
    ensures var text := TAG_OPEN + "\n" + TAG_CLOSE;
      && PatchText(text, [[]]) == Some(text + "\n")
      && BodiesReplaced(text, PairsOf(text, [[]]), [[]]) == text
  {
    hide Has, NoBreak, Lines, Patched, FindClose, FindPairs, Spliced, Fed, JoinLines;
    var o, c := TAG_OPEN, TAG_CLOSE;
    var text := o + "\n" + c;
    TagsPlain();
    TagsMark();
    LinesConcat(o, c);
    LinesOfPlain(o);
    LinesUnended(c);
    var ls := [Line(o, "\n"), Line(c, "")];
    assert Lines(text) == ls && SplitLines(text) == [o, c];
    var gens: seq<seq<string>> := [[]];
    assert gens[1..] == [] && [o] + [] + [c] + [] == [o, c];
    BlockAgain(o, [], c, [], gens);
    PatchedEmpty([]);
    JoinTwo(o, c);
    BodyEmpty(text, ls);
  }

  lemma JoinTwo(a: string, b: string)
    ensures JoinLines([a, b]) == a + "\n" + b + "\n"
  {
    assert [a, b][1..] == [b];
    Associate(a + "\n", b, "\n");
  }

  lemma BodyEmpty(text: string, ls: seq<Line>)
    requires Lines(text) == ls && ls == [Line(TAG_OPEN, "\n"), Line(TAG_CLOSE, "")]
    requires PatchText(text, [[]]).Some?
    ensures BodiesReplaced(text, PairsOf(text, [[]]), [[]]) == text
  {
    hide Has, NoBreak, Lines, Patched, FindPairs, PatchText, Spliced, Fed, Raw;
    var gens: seq<seq<string>> := [[]];
    var ps := PairsOf(text, gens);
    RawOfLines(text);
    assert FedAll(gens)[0] == [] by { assert Fed([]) == []; }
    assert Raw([]) == "" by { RawNone(); }
    assert ps[0] == Pair(0, 1) by { OnlyPair(ps); }
    assert ls[1..1] == [] && ls[0..] == ls;
    UpToDateAll(ls, 0, ps, FedAll(gens));
    SplicedUpToDate(ls, 0, ps, FedAll(gens));
  }

  lemma OnlyPair(ps: seq<Pair>)
    requires |ps| == 1 && Ordered(ps, 0, 2)
    ensures ps[0] == Pair(0, 1)
  {
  }
}
