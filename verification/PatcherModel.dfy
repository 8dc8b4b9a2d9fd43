/** The marker-based file patcher: lines of a text, marker pairs, and the text with the lines between
    each pair replaced. */
module PatcherModel {
  import opened Options

  const TAG_OPEN: string := "==== PERF_EVENT AUTOGEN BEGIN ===="
  const TAG_CLOSE: string := "==== PERF_EVENT AUTOGEN END ===="

  // ---------------------------------------------------------------------------------------
  // Text and lines

  /** Characters that end a line when a text is split into lines. */
  predicate IsBreak(c: char) {
    || c == '\n' || c == '\r' || c == '\U{000B}' || c == '\U{000C}' || c == '\U{001C}' || c == '\U{001D}' || c == '\U{001E}'
    || c == '\U{0085}' || c == '\U{2028}' || c == '\U{2029}'
  }

  /** Reading a file in text mode turns every carriage return, alone or before a line feed, into one
      line feed. */
  function ReadText(raw: string): string {
    if raw == "" then ""
    else if raw[0] != '\r' then [raw[0]] + ReadText(raw[1..])
    else "\n" + ReadText(if |raw| > 1 && raw[1] == '\n' then raw[2..] else raw[1..])
  }

  /** Length of the line break that a text starts with, 0 if none; a carriage return and the line feed
      after it are one break. */
  function BreakLength(s: string): (n: nat)
    ensures n <= |s|
  {
    if s == "" || !IsBreak(s[0]) then 0
    else if |s| > 1 && s[0] == '\r' && s[1] == '\n' then 2
    else 1
  }

  /** A line and the break it ends in. */
  datatype Line = Line(text: string, ending: string) {
    function Whole(): string { text + ending }
  }

  /** Lines with one more character in front. */
  function Prefixed(c: char, ls: seq<Line>): seq<Line> {
    if ls == [] then [Line([c], "")] else [Line([c] + ls[0].text, ls[0].ending)] + ls[1..]
  }

  /** The lines of a text; only the last one may lack an ending. */
  function Lines(s: string): seq<Line> {
    if s == "" then []
    else if BreakLength(s) > 0 then [Line("", s[..BreakLength(s)])] + Lines(s[BreakLength(s)..])
    else Prefixed(s[0], Lines(s[1..]))
  }

  function Texts(ls: seq<Line>): (ts: seq<string>)
    ensures |ts| == |ls|
  {
    seq(|ls|, k requires 0 <= k < |ls| => ls[k].text)
  }

  function SplitLines(s: string): seq<string> { Texts(Lines(s)) }

  /** The text that lines with their endings make up. */
  function Raw(ls: seq<Line>): string {
    if ls == [] then "" else ls[0].Whole() + Raw(ls[1..])
  }

  /** Lines joined by line feeds, with one more at the end. */
  function JoinLines(ls: seq<string>): string {
    if |ls| <= 1 then (if ls == [] then "" else ls[0]) + "\n" else ls[0] + "\n" + JoinLines(ls[1..])
  }

  // ---------------------------------------------------------------------------------------
  // Markers

  predicate Has(s: string, tag: string) {
    |tag| <= |s| && (s[..|tag|] == tag || (s != "" && Has(s[1..], tag)))
  }
  predicate Opens(line: string) { Has(line, TAG_OPEN) }
  predicate Closes(line: string) { Has(line, TAG_CLOSE) }

  /** The line that closes a block opened before line j; none if another one opens first. */
  function FindClose(lines: seq<string>, j: nat): (c: Option<nat>)
    requires j <= |lines|
    ensures c.Some? ==> j <= c.value < |lines| && Closes(lines[c.value])
    decreases |lines| - j
  {
    if j == |lines| then None
    else if Closes(lines[j]) then Some(j)
    else if Opens(lines[j]) then None
    else FindClose(lines, j + 1)
  }

  datatype Pair = Pair(begin: nat, end: nat)

  /** Marker pairs from line i on, in order; none if a block is nested or not closed. */
  function FindPairs(lines: seq<string>, i: nat): (r: Option<seq<Pair>>)
    requires i <= |lines|
    decreases |lines| - i
  {
    if i == |lines| then Some([])
    else if !Opens(lines[i]) then FindPairs(lines, i + 1)
    else
      match FindClose(lines, i + 1)
      case None => None
      case Some(j) =>
        match FindPairs(lines, j + 1)
        case None => None
        case Some(ps) => Some([Pair(i, j)] + ps)
  }

  // ---------------------------------------------------------------------------------------
  // Patching, front to back

  /** The generator outputs put between the markers, one list of lines for each pair; none if the
      markers are malformed or not as many as the generators. */
  function Patched(lines: seq<string>, gens: seq<seq<string>>): Option<seq<string>>
    decreases |lines|
  {
    if lines == [] then (if gens == [] then Some([]) else None)
    else if !Opens(lines[0]) then
      match Patched(lines[1..], gens)
      case None => None
      case Some(rest) => Some([lines[0]] + rest)
    else if gens == [] then None
    else
      match FindClose(lines, 1)
      case None => None
      case Some(j) =>
        match Patched(lines[j + 1..], gens[1..])
        case None => None
        case Some(rest) => Some([lines[0]] + gens[0] + [lines[j]] + rest)
  }

  /** Patching a file's text. */
  function PatchText(text: string, gens: seq<seq<string>>): Option<string> {
    match Patched(SplitLines(text), gens)
    case None => None
    case Some(lines) => Some(JoinLines(lines))
  }

  /** A file after a run of the script, which writes only what differs from the text it read; none if
      it reports an error. */
  function AfterRun(raw: string, gens: seq<seq<string>>): Option<string> {
    match PatchText(ReadText(raw), gens)
    case None => None
    case Some(text) => Some(if text != ReadText(raw) then text else raw)
  }

  // ---------------------------------------------------------------------------------------
  // Splicing by index

  /** Pairs in order, each with its markers on different lines. */
  predicate Ordered(ps: seq<Pair>, i: nat, n: nat)
    requires i <= n
    decreases |ps|
  {
    ps == [] || (i <= ps[0].begin < ps[0].end < n && Ordered(ps[1..], ps[0].end, n))
  }

  /** The lines from i on with every pair's body replaced. */
  function Spliced<T>(lines: seq<T>, i: nat, ps: seq<Pair>, bodies: seq<seq<T>>): seq<T>
    requires i <= |lines| && |ps| == |bodies| && Ordered(ps, i, |lines|)
    decreases |ps|
  {
    if ps == [] then lines[i..]
    else lines[i..ps[0].begin + 1] + (bodies[0] + Spliced(lines, ps[0].end, ps[1..], bodies[1..]))
  }
}
