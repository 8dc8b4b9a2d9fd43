/** Patching replaces the lines between markers and nothing else; patching twice is patching once
    exactly when no generated line contains a marker. */
module PatcherProof {
  import opened Options
  import opened PatcherModel
  import opened PatcherText
  import opened PatcherSplice

  predicate Marked(line: string) { Opens(line) || Closes(line) }

  predicate Unmarked(ls: seq<string>) { forall k :: 0 <= k < |ls| ==> !Marked(ls[k]) }

  predicate AllUnmarked(bodies: seq<seq<string>>) { forall k :: 0 <= k < |bodies| ==> Unmarked(bodies[k]) }

  /** No line that a generator produces contains a marker. */
  predicate Clean(gens: seq<seq<string>>) { AllUnmarked(FileLinesAll(gens)) }

  /** Between an opening marker and the line that closes it there is no marker. */
  lemma {:induction false} BodyUnmarked(lines: seq<string>, j: nat, k: nat)
    requires j <= k && j <= |lines| && FindClose(lines, j).Some? && k < FindClose(lines, j).value
    ensures !Marked(lines[k])
    decreases |lines| - j
  {
    hide Has;
    if k > j {
      BodyUnmarked(lines, j + 1, k);
    }
  }

  // ---------------------------------------------------------------------------------------
  // Counting marked lines

  function Marks(ls: seq<string>): nat {
    if ls == [] then 0 else (if Marked(ls[0]) then 1 else 0) + Marks(ls[1..])
  }

  function AllMarks(bodies: seq<seq<string>>): nat {
    if bodies == [] then 0 else Marks(bodies[0]) + AllMarks(bodies[1..])
  }

  lemma {:induction false} MarksConcat(a: seq<string>, b: seq<string>)
    ensures Marks(a + b) == Marks(a) + Marks(b)
  {
    hide Has;
    if a == [] {
      assert a + b == b;
    } else {
      MarksConcat(a[1..], b);
      assert (a + b)[0] == a[0] && (a + b)[1..] == a[1..] + b;
    }
  }

  lemma {:induction false} NoMarks(a: seq<string>)
    ensures Marks(a) == 0 <==> Unmarked(a)
  {
    hide Has;
    if a != [] {
      NoMarks(a[1..]);
      assert forall k :: 1 <= k < |a| ==> a[k] == a[1..][k - 1];
    }
  }

  lemma {:induction false} NoAllMarks(bodies: seq<seq<string>>)
    ensures AllMarks(bodies) == 0 <==> AllUnmarked(bodies)
  {
    hide Has, Unmarked, Marks;
    if bodies != [] {
      NoMarks(bodies[0]);
      NoAllMarks(bodies[1..]);
      assert forall k :: 1 <= k < |bodies| ==> bodies[k] == bodies[1..][k - 1];
    }
  }

  lemma SingleMark(s: string)
    ensures Marks([s]) == if Marked(s) then 1 else 0
  {
    hide Has;
    assert [s][1..] == [];
  }

  /** A block has two marked lines besides those of its body. */
  lemma BlockMarks(o: string, body: seq<string>, c: string, rest: seq<string>)
    requires Opens(o) && Closes(c)
    ensures Marks([o] + body + [c] + rest) == 2 + Marks(body) + Marks(rest)
  {
    hide Has, Marks;
    MarksConcat([o] + body + [c], rest);
    MarksConcat([o] + body, [c]);
    MarksConcat([o], body);
    SingleMark(o);
    SingleMark(c);
  }

  /** The lines of a block, split at its markers. */
  lemma BlockSplit(lines: seq<string>)
    requires lines != [] && Opens(lines[0]) && FindClose(lines, 1).Some?
    ensures var j := FindClose(lines, 1).value;
      lines == [lines[0]] + lines[1..j] + [lines[j]] + lines[j + 1..] && Unmarked(lines[1..j]) && Closes(lines[j])
  {
    hide Has, FindClose;
    var j := FindClose(lines, 1).value;
    forall k | 0 <= k < |lines[1..j]|
      ensures !Marked(lines[1..j][k])
    {
      BodyUnmarked(lines, 1, k + 1);
    }
  }

  /** Patching keeps every marked line and adds those of the bodies. */
  lemma {:induction false} PatchedMarks(lines: seq<string>, bodies: seq<seq<string>>)
    requires Patched(lines, bodies).Some?
    ensures Marks(Patched(lines, bodies).value) == Marks(lines) + AllMarks(bodies)
    decreases |lines|
  {
    hide Has, Patched, FindClose;
    if lines == [] {
      PatchedEmpty(bodies);
    } else if !Opens(lines[0]) {
      PatchedPlain(lines, bodies);
      PatchedMarks(lines[1..], bodies);
      var rest := Patched(lines[1..], bodies).value;
      assert ([lines[0]] + rest)[1..] == rest;
    } else {
      PatchedBlock(lines, bodies);
      BlockSplit(lines);
      var j := FindClose(lines, 1).value;
      PatchedMarks(lines[j + 1..], bodies[1..]);
      BlockMarks(lines[0], lines[1..j], lines[j], lines[j + 1..]);
      BlockMarks(lines[0], bodies[0], lines[j], Patched(lines[j + 1..], bodies[1..]).value);
      NoMarks(lines[1..j]);
    }
  }

  // ---------------------------------------------------------------------------------------
  // Patching again

  lemma {:induction false} CloseAfter(o: string, body: seq<string>, c: string, rest: seq<string>, j: nat)
    requires Unmarked(body) && Closes(c) && 1 <= j <= 1 + |body|
    ensures FindClose([o] + body + [c] + rest, j) == Some(1 + |body|)
    decreases 1 + |body| - j
  {
    hide Has;
    var all := [o] + body + [c] + rest;
    if j <= |body| {
      assert all[j] == body[j - 1];
      CloseAfter(o, body, c, rest, j + 1);
    } else {
      assert all[j] == c;
    }
  }

  lemma BlockAgain(o: string, body: seq<string>, c: string, rest: seq<string>, gens: seq<seq<string>>)
    requires Opens(o) && Closes(c) && Unmarked(body) && gens != []
    ensures Patched([o] + body + [c] + rest, gens) ==
      match Patched(rest, gens[1..]) case None => None case Some(r) => Some([o] + gens[0] + [c] + r)
  {
    hide Has, Patched, FindClose;
    var all := [o] + body + [c] + rest;
    CloseAfter(o, body, c, rest, 1);
    PatchedBlock(all, gens);
    assert all[0] == o && all[1 + |body|] == c;
    assert all[1 + |body| + 1..] == rest;
  }

  lemma {:induction false} EarlierForgotten(lines: seq<string>, bodies: seq<seq<string>>, later: seq<seq<string>>)
    requires AllUnmarked(bodies) && |later| == |bodies| && Patched(lines, bodies).Some?
    ensures Patched(Patched(lines, bodies).value, later) == Patched(lines, later)
    decreases |lines|
  {
    hide Has, Patched, FindClose, Unmarked;
    if lines == [] {
      PatchedEmpty(bodies);
    } else if !Opens(lines[0]) {
      PatchedPlain(lines, bodies);
      PatchedPlain(lines, later);
      var rest := Patched(lines[1..], bodies).value;
      EarlierForgotten(lines[1..], bodies, later);
      PatchedPlain([lines[0]] + rest, later);
      assert ([lines[0]] + rest)[1..] == rest;
    } else {
      PatchedBlock(lines, bodies);
      PatchedBlock(lines, later);
      var j := FindClose(lines, 1).value;
      EarlierForgotten(lines[j + 1..], bodies[1..], later[1..]);
      BlockAgain(lines[0], bodies[0], lines[j], Patched(lines[j + 1..], bodies[1..]).value, later);
    }
  }

  /** Patching forgets an earlier patch exactly when that one put no marker between the markers. */
  lemma LastPatchWins(lines: seq<string>, bodies: seq<seq<string>>, later: seq<seq<string>>)
    requires |later| == |bodies| && Patched(lines, bodies).Some?
    ensures Patched(Patched(lines, bodies).value, later) == Patched(lines, later) <==> AllUnmarked(bodies)
  {
    hide Has, Patched, FindPairs, Spliced, Ordered, Marks, AllMarks, AllUnmarked;
    var once := Patched(lines, bodies).value;
    NoAllMarks(bodies);
    PatchedPairs(lines, bodies);
    PatchedPairs(lines, later);
    if AllUnmarked(bodies) {
      EarlierForgotten(lines, bodies, later);
    } else if Patched(once, later).Some? {
      PatchedMarks(lines, bodies);
      PatchedMarks(once, later);
      PatchedMarks(lines, later);
    }
  }

  /** A patched file has lines when the file has. */
  lemma PatchedNonEmpty(lines: seq<string>, gens: seq<seq<string>>)
    requires Patched(lines, gens).Some?
    ensures Patched(lines, gens).value == [] <==> lines == []
  {
    hide Has, FindClose;
  }

  /** The lines of a patched text, read back. */
  lemma PatchedLines(text: string, gens: seq<seq<string>>)
    requires PatchText(text, gens).Some? && text != ""
    ensures Patched(SplitLines(text), FileLinesAll(gens)).Some?
    ensures SplitLines(PatchText(text, gens).value) == Patched(SplitLines(text), FileLinesAll(gens)).value
    ensures Lines(PatchText(text, gens).value) == FileRaw(Patched(SplitLines(text), gens).value)
  {
    hide SplitLines, Patched, FileRaw;
    var lines := SplitLines(text);
    SplitIsPlain(text);
    PatchedNonEmpty(lines, gens);
    SplitOfJoin(Patched(lines, gens).value);
    FileLinesPatched(lines, gens);
  }

  /** If a second patch makes the lines it was given, the generated lines contain no marker. */
  lemma RepeatIsClean(lines: seq<string>, gens: seq<seq<string>>)
    requires Patched(lines, FileLinesAll(gens)) == Some(lines)
    ensures Clean(gens)
  {
    hide Has, Patched, Marks, AllMarks, AllUnmarked, FileLines;
    PatchedMarks(lines, FileLinesAll(gens));
    NoAllMarks(FileLinesAll(gens));
  }

  lemma FeedAlone()
    ensures SplitLines("\n") == [""] && PatchText("\n", []) == Some("\n") && !Marked("")
  {
    hide Lines;
    LinesOfPlain("");
    assert Texts([Line("", "\n")]) == [""];
    assert "" + "\n" == "\n";
    assert [""][1..] == [];
    assert Patched([""], []) == Some([""] + []);
    assert [""] + [] == [""];
    assert JoinLines([""]) == "" + "\n";
  }

  /** Only the lines of a text matter to the patch. */
  lemma SamePatch(a: string, b: string, gens: seq<seq<string>>)
    requires SplitLines(a) == SplitLines(b)
    ensures PatchText(a, gens) == PatchText(b, gens)
  {
  }

  /** Patching twice is patching once exactly when no generated line contains a marker. */
  lemma TwiceIsOnce(text: string, gens: seq<seq<string>>)
    requires PatchText(text, gens).Some?
    ensures PatchText(PatchText(text, gens).value, gens) == PatchText(text, gens) <==> Clean(gens)
  {
    hide SplitLines, Patched, FileLines, JoinLines, AllUnmarked;
    var lines, once := SplitLines(text), PatchText(text, gens).value;
    var fileGens := FileLinesAll(gens);
    if text == "" {
      EmptyTwice(gens);
    } else {
      PatchedLines(text, gens);
      if Clean(gens) {
        EarlierForgotten(lines, fileGens, gens);
      }
      if PatchText(once, gens) == PatchText(text, gens) {
        JoinNotEmpty(Patched(lines, gens).value);
        PatchedLines(once, gens);
        RepeatIsClean(SplitLines(once), gens);
      }
    }
  }

  lemma JoinNotEmpty(ls: seq<string>)
    ensures JoinLines(ls) != ""
  {
  }

  lemma EmptyTwice(gens: seq<seq<string>>)
    requires PatchText("", gens).Some?
    ensures gens == [] && PatchText("", gens) == Some("\n") && PatchText("\n", gens) == Some("\n") && Clean(gens)
  {
    hide Has, Lines;
    NoLines();
    PatchedEmpty(gens);
    FeedAlone();
  }

  /** Running the script twice leaves the file as running it once does, in exactly the same cases: also
      with carriage returns in the file or in generated lines, and when nothing is written. */
  lemma RunTwiceIsOnce(raw: string, gens: seq<seq<string>>)
    requires AfterRun(raw, gens).Some?
    ensures AfterRun(AfterRun(raw, gens).value, gens) == AfterRun(raw, gens) <==> Clean(gens)
  {
    hide ReadText, PatchText, Clean;
    var text := ReadText(raw);
    var once := PatchText(text, gens).value;
    TwiceIsOnce(text, gens);
    if once != text {
      ReadTextLines(once);
      SamePatch(ReadText(once), once, gens);
      if PatchText(once, gens) == Some(ReadText(once)) {
        StableIsClean(ReadText(once), gens);
      }
    }
  }

  /** A text that patching leaves alone has no marker in its generated lines. */
  lemma StableIsClean(text: string, gens: seq<seq<string>>)
    requires PatchText(text, gens) == Some(text)
    ensures Clean(gens)
  {
    hide PatchText, Clean;
    TwiceIsOnce(text, gens);
  }

  // ---------------------------------------------------------------------------------------
  // A generated line with a marker

  lemma TagsMark()
    ensures Opens(TAG_OPEN) && Closes(TAG_CLOSE) && !Opens(TAG_CLOSE)
  {
  }

  lemma TagsPlain()
    ensures NoBreak(TAG_OPEN) && NoBreak(TAG_CLOSE)
  {
    hide NoBreak;
    Printable(TAG_OPEN);
    Printable(TAG_CLOSE);
  }

  lemma Printable(s: string)
    requires forall k :: 0 <= k < |s| ==> ' ' <= s[k] <= '~'
    ensures NoBreak(s)
  {
  }

  lemma {:induction false} LinesFed(ls: seq<string>)
    requires Plain(ls) && ls != []
    ensures SplitLines(JoinLines(ls)) == ls
  {
    hide Lines, NoBreak, JoinLines;
    SplitOfJoin(ls);
    FileRawOfPlain(ls);
    assert Texts(Fed(ls)) == ls;
  }

  /** A generator that writes an end marker: the second patch adds another line. */
  lemma EndMarkerGenerated()
    ensures var text, gens := JoinLines([TAG_OPEN, TAG_CLOSE]), [[TAG_CLOSE]];
      var once := JoinLines([TAG_OPEN, TAG_CLOSE, TAG_CLOSE]);
      && PatchText(text, gens) == Some(once)
      && PatchText(once, gens) == Some(JoinLines([TAG_OPEN, TAG_CLOSE, TAG_CLOSE, TAG_CLOSE]))
      && JoinLines([TAG_OPEN, TAG_CLOSE, TAG_CLOSE]) != JoinLines([TAG_OPEN, TAG_CLOSE, TAG_CLOSE, TAG_CLOSE])
  {
    hide Has, NoBreak, SplitLines, JoinLines, Patched;
    TagsPlain();
    TagsMark();
    var o, c := TAG_OPEN, TAG_CLOSE;
    var gens := [[c]];
    assert gens[1..] == [];
    LinesFed([o, c]);
    LinesFed([o, c, c]);
    LinesFed([o, c, c, c]);
    BlockAgain(o, [], c, [], gens);
    PatchedEmpty([]);
    assert [o] + [] + [c] + [] == [o, c] && [o] + [c] + [c] + [] == [o, c, c];
    BlockAgain(o, [], c, [c], gens);
    PatchedPlain([c], []);
    assert [c][1..] == [] && [c] + [] == [c];
    assert [o] + [] + [c] + [c] == [o, c, c] && [o] + [c] + [c] + [c] == [o, c, c, c];
  }
}
