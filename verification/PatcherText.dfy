/** Lines and text: splitting keeps every character, joining and splitting are inverse on lines, and
    reading a file in text mode does not change its lines. */
module PatcherText {
  import opened PatcherModel

  predicate NoBreak(s: string) { forall k :: 0 <= k < |s| ==> !IsBreak(s[k]) }

  predicate Plain(lines: seq<string>) { forall k :: 0 <= k < |lines| ==> NoBreak(lines[k]) }

  /** A line with its ending: a line feed, some other break, or for the last line none. */
  predicate WellEnded(l: Line, last: bool) {
    && NoBreak(l.text)
    && (l.ending == "\n" || (l.ending != "" && l.ending[0] != '\n') || (l.ending == "" && last))
  }

  predicate AllWellEnded(ls: seq<Line>) { forall k :: 0 <= k < |ls| ==> WellEnded(ls[k], k == |ls| - 1) }

  lemma LinesBreak(s: string)
    requires s != "" && BreakLength(s) > 0
    ensures Lines(s) == [Line("", s[..BreakLength(s)])] + Lines(s[BreakLength(s)..])
  {
    hide IsBreak;
  }

  lemma LinesChar(s: string)
    requires s != "" && BreakLength(s) == 0
    ensures Lines(s) == Prefixed(s[0], Lines(s[1..]))
  {
    hide IsBreak;
  }

  lemma FeedIsBreak()
    ensures IsBreak('\n') && IsBreak('\r')
  {
  }

  /** Splitting loses no character. */
  lemma {:induction false} RawOfLines(s: string)
    ensures Raw(Lines(s)) == s
    decreases |s|
  {
    hide IsBreak, Lines, BreakLength;
    if s == "" {
      NoLines();
    } else if BreakLength(s) > 0 {
      LinesBreak(s);
      RawOfLines(s[BreakLength(s)..]);
      assert s[..BreakLength(s)] + s[BreakLength(s)..] == s;
    } else {
      LinesChar(s);
      RawOfLines(s[1..]);
      RawPrefixed(s[0], Lines(s[1..]));
      assert [s[0]] + s[1..] == s;
    }
  }

  lemma NoLines()
    ensures Lines("") == []
  {
  }

  lemma RawPrefixed(c: char, ls: seq<Line>)
    ensures Raw(Prefixed(c, ls)) == [c] + Raw(ls)
  {
    var p := Prefixed(c, ls);
    if ls != [] {
      assert p[1..] == ls[1..];
      assert ([c] + ls[0].text) + ls[0].ending + Raw(ls[1..]) == [c] + (ls[0].text + ls[0].ending + Raw(ls[1..]));
    }
  }

  lemma {:induction false} LinesWellEnded(s: string)
    ensures AllWellEnded(Lines(s)) && (Lines(s) == [] <==> s == "")
    decreases |s|
  {
    hide Lines, IsBreak;
    if s == "" {
      NoLines();
    } else if BreakLength(s) > 0 {
      LinesBreak(s);
      LinesWellEnded(s[BreakLength(s)..]);
    } else {
      LinesChar(s);
      LinesWellEnded(s[1..]);
    }
  }

  lemma SplitIsPlain(text: string)
    ensures Plain(SplitLines(text)) && (SplitLines(text) == [] <==> text == "")
  {
    hide Lines, NoBreak;
    LinesWellEnded(text);
  }

  /** What ends in a line feed is split apart from what follows. */
  lemma {:induction false} LinesConcat(s: string, rest: string)
    ensures Lines(s + "\n" + rest) == Lines(s + "\n") + Lines(rest)
    decreases |s|
  {
    hide IsBreak, Lines;
    FeedIsBreak();
    NoLines();
    var f := s + "\n";
    var t := f + rest;
    var n := BreakLength(f);
    assert BreakLength(t) == n;
    if n == |f| {
      LinesBreak(f);
      LinesBreak(t);
      assert f[n..] == "" && t[n..] == rest && t[..n] == f[..n];
    } else if n > 0 {
      LinesBreak(f);
      LinesBreak(t);
      LinesConcat(s[n..], rest);
      assert f[n..] == s[n..] + "\n" && t[n..] == s[n..] + "\n" + rest && t[..n] == f[..n];
    } else {
      LinesChar(f);
      LinesChar(t);
      LinesConcat(s[1..], rest);
      assert f[1..] == s[1..] + "\n" && t[1..] == s[1..] + "\n" + rest;
      LinesWellEnded(f[1..]);
    }
  }

  lemma {:induction false} LinesOfPlain(s: string)
    requires NoBreak(s)
    ensures Lines(s + "\n") == [Line(s, "\n")]
    decreases |s|
  {
    hide IsBreak, Lines;
    FeedIsBreak();
    NoLines();
    var f := s + "\n";
    if s == "" {
      LinesBreak(f);
      assert f[..1] == "\n" && f[1..] == "";
      assert [Line("", "\n")] + Lines("") == [Line(s, "\n")];
    } else {
      LinesChar(f);
      LinesOfPlain(s[1..]);
      assert f[1..] == s[1..] + "\n" && [s[0]] + s[1..] == s;
    }
  }

  lemma {:induction false} LinesUnended(s: string)
    requires NoBreak(s) && s != ""
    ensures Lines(s) == [Line(s, "")]
  {
    hide IsBreak, Lines;
    NoLines();
    LinesChar(s);
    if |s| > 1 {
      LinesUnended(s[1..]);
      assert [s[0]] + s[1..] == s;
    } else {
      assert s[1..] == "" && [s[0]] == s;
    }
  }

  // ---------------------------------------------------------------------------------------
  // Lists of lines

  /** Lines that each end in a line feed. */
  function Fed(ls: seq<string>): (r: seq<Line>)
    ensures |r| == |ls|
  {
    seq(|ls|, k requires 0 <= k < |ls| => Line(ls[k], "\n"))
  }

  /** The lines that a list makes in a file: an entry may span several. */
  function FileRaw(ls: seq<string>): seq<Line> {
    if ls == [] then [] else Lines(ls[0] + "\n") + FileRaw(ls[1..])
  }

  function FileLines(ls: seq<string>): seq<string> { Texts(FileRaw(ls)) }

  lemma FedSlice(ls: seq<string>, i: nat, j: nat)
    requires i <= j <= |ls|
    ensures Fed(ls)[i..j] == Fed(ls[i..j])
  {
  }

  lemma FedConcat(a: seq<string>, b: seq<string>)
    ensures Fed(a + b) == Fed(a) + Fed(b)
  {
  }

  lemma TextsSlice(ls: seq<Line>, i: nat, j: nat)
    requires i <= j <= |ls|
    ensures Texts(ls)[i..j] == Texts(ls[i..j])
  {
  }

  lemma TextsConcat(a: seq<Line>, b: seq<Line>)
    ensures Texts(a + b) == Texts(a) + Texts(b)
  {
  }

  lemma {:induction false} FileRawConcat(a: seq<string>, b: seq<string>)
    ensures FileRaw(a + b) == FileRaw(a) + FileRaw(b)
  {
    hide Lines;
    if a == [] {
      assert a + b == b;
    } else {
      FileRawConcat(a[1..], b);
      assert (a + b)[1..] == a[1..] + b && (a + b)[0] == a[0];
    }
  }

  lemma {:induction false} FileRawOfPlain(ls: seq<string>)
    requires Plain(ls)
    ensures FileRaw(ls) == Fed(ls)
  {
    hide Lines, NoBreak;
    if ls != [] {
      LinesOfPlain(ls[0]);
      FileRawOfPlain(ls[1..]);
    }
  }

  lemma RawStep(l: Line, ls: seq<Line>)
    ensures Raw([l] + ls) == l.Whole() + Raw(ls)
  {
    assert ([l] + ls)[1..] == ls;
  }

  lemma {:induction false} RawConcat(a: seq<Line>, b: seq<Line>)
    ensures Raw(a + b) == Raw(a) + Raw(b)
  {
    if a == [] {
      assert a + b == b;
    } else {
      hide Raw, Line.Whole;
      RawConcat(a[1..], b);
      RawStep(a[0], a[1..]);
      RawStep(a[0], a[1..] + b);
      assert [a[0]] + a[1..] == a;
      Associate([a[0]], a[1..], b);
      Associate(a[0].Whole(), Raw(a[1..]), Raw(b));
    }
  }

  lemma Associate<T>(a: seq<T>, b: seq<T>, c: seq<T>)
    ensures (a + b) + c == a + (b + c)
  {
  }

  /** Entries of several lines are the same text as those lines. */
  lemma {:induction false} RawOfFile(ls: seq<string>)
    ensures Raw(FileRaw(ls)) == Raw(Fed(ls))
  {
    hide Lines;
    if ls != [] {
      RawOfFile(ls[1..]);
      RawOfLines(ls[0] + "\n");
      RawConcat(Lines(ls[0] + "\n"), FileRaw(ls[1..]));
      assert Fed(ls)[0] == Line(ls[0], "\n") && Fed(ls)[1..] == Fed(ls[1..]);
    }
  }

  lemma {:induction false} JoinIsRaw(ls: seq<string>)
    requires ls != []
    ensures JoinLines(ls) == Raw(Fed(ls))
    decreases |ls|
  {
    var f := Fed(ls);
    assert f[0] == Line(ls[0], "\n") && f[1..] == Fed(ls[1..]);
    if |ls| > 1 {
      JoinIsRaw(ls[1..]);
    } else {
      assert Raw(f[1..]) == "";
    }
  }

  /** Splitting what was joined gives the lines of the file, each with its ending. */
  lemma {:induction false} SplitOfJoin(ls: seq<string>)
    requires ls != []
    ensures Lines(JoinLines(ls)) == FileRaw(ls)
    ensures SplitLines(JoinLines(ls)) == FileLines(ls)
    decreases |ls|
  {
    hide Lines;
    if |ls| == 1 {
      assert FileRaw(ls[1..]) == [];
      assert FileRaw(ls) == Lines(ls[0] + "\n");
    } else {
      SplitOfJoin(ls[1..]);
      LinesConcat(ls[0], JoinLines(ls[1..]));
    }
  }

  /** A text all of whose breaks are line feeds, one of them at its end. */
  predicate Normal(text: string) {
    text != "" && text[|text| - 1] == '\n' && forall k :: 0 <= k < |text| ==> IsBreak(text[k]) ==> text[k] == '\n'
  }

  predicate EndFed(ls: seq<Line>) { forall k :: 0 <= k < |ls| ==> ls[k].ending == "\n" }

  lemma NormalRest(text: string, m: nat)
    requires 1 <= m <= |text|
    ensures Normal(text) <==>
      && (forall k :: 0 <= k < m ==> IsBreak(text[k]) ==> text[k] == '\n')
      && (if |text| == m then text[m - 1] == '\n' else Normal(text[m..]))
  {
    hide IsBreak;
    assert forall k :: m <= k < |text| ==> text[k] == text[m..][k - m];
  }

  lemma EndFedBreak(l: Line, rest: seq<Line>)
    ensures EndFed([l] + rest) <==> l.ending == "\n" && EndFed(rest)
  {
    assert forall k :: 0 <= k < |rest| ==> ([l] + rest)[k + 1] == rest[k];
    assert ([l] + rest)[0] == l;
  }

  lemma EndFedPrefixed(c: char, rest: seq<Line>)
    ensures EndFed(Prefixed(c, rest)) <==> rest != [] && EndFed(rest)
  {
    var p := Prefixed(c, rest);
    if rest == [] {
      assert p[0].ending == "";
    } else {
      assert |p| == |rest| && forall k :: 0 <= k < |rest| ==> p[k].ending == rest[k].ending;
    }
  }

  /** Normal texts are those whose lines all end in one line feed. */
  lemma {:induction false} NormalEndings(text: string)
    ensures Normal(text) <==> text != "" && EndFed(Lines(text))
    decreases |text|
  {
    hide Lines, IsBreak, Normal, EndFed, Prefixed;
    FeedIsBreak();
    NoLines();
    if text == "" {
      assert !Normal(text) by { NotNormal(); }
    } else if BreakLength(text) > 0 {
      var n := BreakLength(text);
      LinesBreak(text);
      EndFedBreak(Line("", text[..n]), Lines(text[n..]));
      NormalRest(text, n);
      NormalEndings(text[n..]);
      FirstBreak(text);
      assert |text| == n ==> EndFed(Lines(text[n..])) by { NoneFed(); }
    } else {
      LinesChar(text);
      EndFedPrefixed(text[0], Lines(text[1..]));
      NormalRest(text, 1);
      NormalEndings(text[1..]);
      LinesWellEnded(text[1..]);
    }
  }

  lemma NotNormal()
    ensures !Normal("")
  {
  }

  lemma NoneFed()
    ensures EndFed([])
  {
  }

  lemma FirstBreak(text: string)
    requires BreakLength(text) > 0
    ensures var n := BreakLength(text);
      text[..n] == "\n" <==> text[n - 1] == '\n' && forall k :: 0 <= k < n ==> IsBreak(text[k]) ==> text[k] == '\n'
  {
    hide IsBreak;
    FeedIsBreak();
  }

  // ---------------------------------------------------------------------------------------
  // Text mode

  /** A line as text mode delivers it: a carriage return, alone or before a line feed, is a line feed. */
  function AsRead(l: Line): Line { if l.ending == "\r" || l.ending == "\r\n" then Line(l.text, "\n") else l }

  function AllAsRead(ls: seq<Line>): (r: seq<Line>)
    ensures |r| == |ls|
  {
    seq(|ls|, k requires 0 <= k < |ls| => AsRead(ls[k]))
  }

  lemma AsReadPrefixed(c: char, ls: seq<Line>)
    ensures AllAsRead(Prefixed(c, ls)) == Prefixed(c, AllAsRead(ls))
  {
  }

  lemma AsReadCons(l: Line, ls: seq<Line>)
    ensures AllAsRead([l] + ls) == [AsRead(l)] + AllAsRead(ls)
  {
  }

  /** Reading in text mode changes carriage returns that end lines into line feeds, and nothing else. */
  lemma {:induction false} ReadTextLines(raw: string)
    ensures Lines(ReadText(raw)) == AllAsRead(Lines(raw))
    ensures SplitLines(ReadText(raw)) == SplitLines(raw)
    decreases |raw|
  {
    hide IsBreak, Lines, Prefixed, AllAsRead;
    FeedIsBreak();
    NoLines();
    if raw == "" {
      NoneAsRead();
    } else {
      var n, text := BreakLength(raw), ReadText(raw);
      if n == 0 {
        assert text == [raw[0]] + ReadText(raw[1..]);
        assert text[1..] == ReadText(raw[1..]);
        LinesChar(raw);
        LinesChar(text);
        ReadTextLines(raw[1..]);
        AsReadPrefixed(raw[0], Lines(raw[1..]));
      } else {
        assert text[1..] == ReadText(raw[n..]);
        assert BreakLength(text) == 1 by {
          assert text[0] != '\r' && IsBreak(text[0]);
        }
        LinesBreak(raw);
        LinesBreak(text);
        ReadTextLines(raw[n..]);
        AsReadCons(Line("", raw[..n]), Lines(raw[n..]));
        FirstAsRead(raw);
      }
    }
    TextsAsRead(Lines(raw));
  }

  lemma FirstAsRead(raw: string)
    requires BreakLength(raw) > 0
    ensures AsRead(Line("", raw[..BreakLength(raw)])) == Line("", ReadText(raw)[..1])
  {
    var n := BreakLength(raw);
    if raw[0] != '\r' {
      assert raw[..n] == [raw[0]] && ReadText(raw)[..1] == [raw[0]];
      assert raw[..n][0] != '\r';
    } else {
      assert ReadText(raw)[..1] == "\n";
      assert raw[..n] == if n == 2 then "\r\n" else "\r";
    }
  }

  lemma NoneAsRead()
    ensures AllAsRead([]) == []
  {
  }

  lemma TextsAsRead(ls: seq<Line>)
    ensures Texts(AllAsRead(ls)) == Texts(ls)
  {
  }

  /** A line of plain text is one line, with or without an ending. */
  lemma OneLine(s: string)
    requires NoBreak(s) && s != ""
    ensures SplitLines(s) == [s]
  {
    hide Lines;
    LinesUnended(s);
  }

  /** The characters at which text is split into lines: line feed, carriage return, vertical tab, form feed,
      the three information separators, next line, and the line and paragraph separators. */
  lemma SplitsExactlyAt(a: string, c: char, b: string)
    requires NoBreak(a) && NoBreak(b) && b != ""
    ensures SplitLines(a + [c] + b) == [a, b] <==>
      c in "\n\r\U{000B}\U{000C}\U{001C}\U{001D}\U{001E}\U{0085}\U{2028}\U{2029}"
  {
    if IsBreak(c) {
      SplitAtBreak(a, c, b);
    } else {
      assert NoBreak(a + [c] + b);
      OneLine(a + [c] + b);
    }
  }

  lemma {:induction false} SplitAtBreak(a: string, c: char, b: string)
    requires NoBreak(a) && NoBreak(b) && b != "" && IsBreak(c)
    ensures Lines(a + [c] + b) == [Line(a, [c]), Line(b, "")]
    ensures SplitLines(a + [c] + b) == [a, b]
    decreases |a|
  {
    hide IsBreak, Lines;
    FeedIsBreak();
    var t := a + [c] + b;
    if a == "" {
      assert t == [c] + b;
      assert BreakLength(t) == 1 by { assert t[0] == c && t[1] == b[0]; }
      LinesBreak(t);
      assert t[..1] == [c] && t[1..] == b;
      LinesUnended(b);
    } else {
      LinesChar(t);
      assert t[1..] == a[1..] + [c] + b && [a[0]] + a[1..] == a;
      SplitAtBreak(a[1..], c, b);
    }
  }

  // ---------------------------------------------------------------------------------------
  // Markers

  predicate StandsAt(s: string, tag: string, k: nat) { k + |tag| <= |s| && s[k..k + |tag|] == tag }

  /** A line contains a tag exactly when the tag stands somewhere in it. */
  lemma {:induction false} HasExactly(s: string, tag: string)
    ensures Has(s, tag) <==> exists k: nat :: StandsAt(s, tag, k)
    decreases |s|
  {
    if |tag| <= |s| {
      if s[..|tag|] == tag {
        assert StandsAt(s, tag, 0);
      } else if s != "" {
        HasExactly(s[1..], tag);
        if Has(s[1..], tag) {
          var k: nat :| StandsAt(s[1..], tag, k);
          ShiftedTag(s, tag, k);
        }
        if k: nat :| StandsAt(s, tag, k) {
          assert k > 0;
          ShiftedTag(s, tag, k - 1);
        }
      }
    }
  }

  lemma ShiftedTag(s: string, tag: string, k: nat)
    requires s != ""
    ensures StandsAt(s[1..], tag, k) <==> StandsAt(s, tag, k + 1)
  {
    if k + 1 + |tag| <= |s| {
      assert s[1..][k..k + |tag|] == s[k + 1..k + 1 + |tag|];
    }
  }
}
