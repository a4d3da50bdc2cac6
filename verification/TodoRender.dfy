/**
  Rendering a todo to file lines, and what the scanner makes of the lines it renders.
*/
module TodoRender {
  import opened Optional
  import opened TextLines
  import opened TodoParser

  function Spaces(n: nat): (s: string)
    ensures |s| == n && forall k :: 0 <= k < n ==> s[k] == ' '
  {
    seq(n, _ => ' ')
  }

  function RStripAll(lines: seq<string>): (r: seq<string>)
    ensures |r| == |lines|
  {
    if lines == [] then [] else [RStrip(lines[0])] + RStripAll(lines[1..])
  }

  function DropEmptyTail(lines: seq<string>): seq<string> {
    if lines != [] && lines[|lines| - 1] == "" then DropEmptyTail(lines[..|lines| - 1]) else lines
  }

  /** The lines of a details body as rendered, before padding. */
  function BodyLines(details: string): seq<string> {
    var body := RStripFeeds(LStripFeeds(details));
    if body == "" then [] else DropEmptyTail(RStripAll(SplitFeeds(UnixFeeds(body))))
  }

  function HeadLine(indent: string, marker: char, check: char, text: string): string {
    indent + [marker] + " [" + [check] + "] " + text
  }

  function Pad(indent: string, line: string): string {
    if line == "" then "" else indent + Spaces(DETAIL_INDENT) + line
  }

  function PadAll(indent: string, lines: seq<string>): (r: seq<string>)
    ensures |r| == |lines|
  {
    if lines == [] then [] else [Pad(indent, lines[0])] + PadAll(indent, lines[1..])
  }

  function BlockLines(indent: string, marker: char, check: char, text: string, details: string): seq<string> {
    [HeadLine(indent, marker, check, text)] + PadAll(indent, BodyLines(details))
  }

  /** The program's rendering: pad line by line, then drop the empty lines left at the end. */
  method RenderBlock(indent: string, marker: char, check: char, text: string, details: string)
    returns (out: seq<string>)
    ensures out == BlockLines(indent, marker, check, text, details)
  {
    out := [HeadLine(indent, marker, check, text)];
    var body := RStripFeeds(LStripFeeds(details));
    if body != "" {
      out := AppendPadded(out, indent, SplitFeeds(UnixFeeds(body)));
      out := PopEmpty(out, indent, RStripAll(SplitFeeds(UnixFeeds(body))));
    }
  }

  method AppendPadded(head: seq<string>, indent: string, lines: seq<string>) returns (out: seq<string>)
    ensures out == head + PadAll(indent, RStripAll(lines))
  {
    out := head;
    ghost var padded := PadAll(indent, RStripAll(lines));
    for k := 0 to |lines|
      invariant out == head + padded[..k]
    {
      RStripAt(lines, k);
      PadAt(indent, RStripAll(lines), k);
      assert padded[..k + 1] == padded[..k] + [padded[k]];
      out := out + [Pad(indent, RStrip(lines[k]))];
    }
    assert padded[..|lines|] == padded;
  }

  method PopEmpty(all: seq<string>, indent: string, ghost lines: seq<string>) returns (out: seq<string>)
    requires |all| > 0 && all == [all[0]] + PadAll(indent, lines)
    ensures out == [all[0]] + PadAll(indent, DropEmptyTail(lines))
  {
    out := all;
    ghost var n: nat := |lines|;
    assert lines[..n] == lines;
    while |out| > 1 && out[|out| - 1] == ""
      invariant n <= |lines| && out == [all[0]] + PadAll(indent, lines[..n])
      invariant DropEmptyTail(lines[..n]) == DropEmptyTail(lines)
      decreases |out|
    {
      PadFront(indent, lines, n);
      assert out[|out| - 1] == Pad(indent, lines[n - 1]);
      assert lines[..n][..n - 1] == lines[..n - 1];
      out := out[..|out| - 1];
      n := n - 1;
    }
    if n > 0 {
      PadFront(indent, lines, n);
      assert out[|out| - 1] == Pad(indent, lines[n - 1]);
    }
    assert DropEmptyTail(lines) == lines[..n];
  }

  lemma {:induction false} PadAt(indent: string, lines: seq<string>, k: nat)
    requires k < |lines|
    ensures PadAll(indent, lines)[k] == Pad(indent, lines[k])
  {
    if k > 0 {
      PadAt(indent, lines[1..], k - 1);
    }
  }

  lemma {:induction false} PadFront(indent: string, lines: seq<string>, n: nat)
    requires 0 < n <= |lines|
    ensures PadAll(indent, lines[..n]) == PadAll(indent, lines[..n - 1]) + [Pad(indent, lines[n - 1])]
  {
    forall k | 0 <= k < n - 1 ensures PadAll(indent, lines[..n])[k] == PadAll(indent, lines[..n - 1])[k] {
      PadAt(indent, lines[..n], k);
      PadAt(indent, lines[..n - 1], k);
    }
    PadAt(indent, lines[..n], n - 1);
  }

  lemma RStripAt(lines: seq<string>, k: nat)
    requires k < |lines|
    ensures RStripAll(lines)[k] == RStrip(lines[k])
  {
    if k > 0 {
      RStripAt(lines[1..], k - 1);
    }
  }

  // ----- the shape of body lines -----

  /** Empty, or right-trimmed with something in it. */
  predicate TrimmedLine(s: string) {
    s == "" || !IsSpace(s[|s| - 1])
  }

  /** What BodyLines produces: trimmed lines without line feeds, the last one not empty. */
  ghost predicate IsBody(body: seq<string>) {
    && (forall k :: 0 <= k < |body| ==> TrimmedLine(body[k]) && '\n' !in body[k])
    && (body != [] ==> body[|body| - 1] != "")
  }

  lemma {:induction false} DropEmptyTailIs(lines: seq<string>)
    ensures DropEmptyTail(lines) <= lines
    ensures DropEmptyTail(lines) != [] ==> DropEmptyTail(lines)[|DropEmptyTail(lines)| - 1] != ""
    ensures forall k :: |DropEmptyTail(lines)| <= k < |lines| ==> lines[k] == ""
  {
    if lines != [] && lines[|lines| - 1] == "" {
      DropEmptyTailIs(lines[..|lines| - 1]);
    }
  }

  lemma BodyLinesIsBody(details: string)
    ensures IsBody(BodyLines(details))
  {
    var body := RStripFeeds(LStripFeeds(details));
    if body != "" {
      var lines := SplitFeeds(UnixFeeds(body));
      var trimmed := RStripAll(lines);
      DropEmptyTailIs(trimmed);
      SplitHasNoFeeds(UnixFeeds(body));
      forall k | 0 <= k < |trimmed| ensures TrimmedLine(trimmed[k]) && '\n' !in trimmed[k] {
        RStripAt(lines, k);
        RStripIs(lines[k]);
      }
    }
  }

  // ----- what the scanner sees -----

  lemma BlankConcat(a: string, b: string)
    ensures IsBlank(a + b) <==> IsBlank(a) && IsBlank(b)
  {
    assert forall k :: 0 <= k < |b| ==> (a + b)[|a| + k] == b[k];
    assert forall k :: 0 <= k < |a| ==> (a + b)[k] == a[k];
  }

  lemma SpaceChars()
    ensures IsSpace(' ') && !IsSpace('-') && !IsSpace('*') && !IsSpace('+') && !IsSpace('[') && !IsSpace(']')
  {
  }

  /** A rendered checkbox line matches, with the groups it was rendered from. */
  lemma HeadLineMatches(indent: string, marker: char, check: char, text: string)
    requires IsBlank(indent) && IsMarker(marker) && IsCheck(check) && Trimmed(text)
    ensures MatchTodo(HeadLine(indent, marker, check, text)) == Some(Head(indent, marker, check, text))
  {
    var line := HeadLine(indent, marker, check, text);
    var i := |indent|;
    HeadLineChars(indent, marker, check, text, line);
    SkipSpaceIs(line, 0, i);
    SkipSpaceIs(line, i + 1, i + 2);
    SkipSpaceIs(line, i + 5, i + 6);
    RStripOfTrimmed(text);
  }

  lemma HeadLineChars(indent: string, marker: char, check: char, text: string, line: string)
    requires line == HeadLine(indent, marker, check, text)
    ensures var i := |indent|;
      && |line| == i + 6 + |text| && line[..i] == indent && line[i + 6..] == text
      && line[i] == marker && line[i + 1] == ' ' && line[i + 2] == '[' && line[i + 3] == check
      && line[i + 4] == ']' && line[i + 5] == ' ' && (text != "" ==> line[i + 6] == text[0])
      && forall k :: 0 <= k < i ==> line[k] == indent[k]
  {
  }

  lemma RStripOfTrimmed(s: string)
    requires s == "" || !IsSpace(s[|s| - 1])
    ensures RStrip(s) == s
  {
  }

  lemma HeadLineIsCheckbox(indent: string, marker: char, check: char, text: string)
    requires IsBlank(indent) && IsMarker(marker) && IsCheck(check) && Trimmed(text)
    ensures Classify(HeadLine(indent, marker, check, text)) == Checkbox(Head(indent, marker, check, text))
  {
    HeadLineMatches(indent, marker, check, text);
    assert HeadLine(indent, marker, check, text)[|indent|] == marker;
  }

  lemma BoxShift(pad: string, line: string, i: nat)
    requires i <= |line|
    ensures HasBox(pad + line, |pad| + i) == HasBox(line, i)
  {
    var s, n := pad + line, |pad|;
    if i < |line| {
      assert s[n + i] == line[i];
      SkipAfter(pad, line, i + 1);
      var j := SkipSpace(line, i + 1);
      assert SkipSpace(s, n + i + 1) == n + j;
      if j + 2 < |line| {
        assert s[n + j] == line[j] && s[n + j + 1] == line[j + 1] && s[n + j + 2] == line[j + 2];
      }
    }
  }

  /** Leading white space only lengthens the indent group of a match. */
  lemma MatchAfterBlank(pad: string, line: string)
    requires IsBlank(pad)
    ensures IsTodo(pad + line) <==> IsTodo(line)
  {
    SkipAcross(pad, line);
    BoxShift(pad, line, SkipSpace(line, 0));
  }

  lemma SkipAfter(pad: string, line: string, from: nat)
    requires from <= |line|
    ensures SkipSpace(pad + line, |pad| + from) == |pad| + SkipSpace(line, from)
  {
    SkipSpaceStops(line, from);
    var s := pad + line;
    assert forall k :: 0 <= k < |line| ==> s[|pad| + k] == line[k];
    SkipSpaceIs(s, |pad| + from, |pad| + SkipSpace(line, from));
  }

  lemma SkipAcross(pad: string, line: string)
    requires IsBlank(pad)
    ensures SkipSpace(pad + line, 0) == |pad| + SkipSpace(line, 0)
  {
    SkipSpaceStops(line, 0);
    var s := pad + line;
    SkipSpaceIs(s, 0, |pad| + SkipSpace(line, 0));
  }

  predicate IsTodo(line: string) {
    MatchTodo(line).Some?
  }

  predicate AllSpaces(s: string) {
    forall k | 0 <= k < |s| :: s[k] == ' '
  }

  lemma LeadingSpacesConcat(pad: string, line: string)
    requires AllSpaces(pad)
    ensures LeadingSpaces(pad + line) == |pad| + LeadingSpaces(line)
  {
    if pad == "" {
      assert pad + line == line;
    } else {
      assert (pad + line)[1..] == pad[1..] + line;
      LeadingSpacesConcat(pad[1..], line);
    }
  }

  lemma LeadingSpacesStop(pad: string, line: string)
    requires !AllSpaces(pad)
    ensures LeadingSpaces(pad + line) < |pad|
  {
    assert (pad + line)[1..] == pad[1..] + line;
    if pad[0] == ' ' {
      LeadingSpacesStop(pad[1..], line);
    }
  }

  /** A padded body line is a detail line exactly when the indent is spaces and the line is no checkbox. */
  lemma PaddedLine(indent: string, line: string)
    requires IsBlank(indent) && TrimmedLine(line)
    ensures var (c, col) := (Classify(Pad(indent, line)), |indent| + DETAIL_INDENT);
      && (c.Blank? <==> line == "")
      && (line != "" ==> (IsDetail(c, col) <==> AllSpaces(indent) && !IsTodo(line)))
      && (c.Blank? || IsDetail(c, col) ==> DedentLine(c, col) == line)
  {
    if line != "" {
      var pad := indent + Spaces(DETAIL_INDENT);
      var padded := pad + line;
      assert padded == Pad(indent, line);
      SpaceChars();
      BlankConcat(indent, Spaces(DETAIL_INDENT));
      BlankConcat(pad, line);
      MatchAfterBlank(pad, line);
      assert padded[|pad|..] == line;
      if AllSpaces(indent) {
        assert AllSpaces(pad);
        LeadingSpacesConcat(pad, line);
      } else {
        LeadingSpacesStop(indent, Spaces(DETAIL_INDENT) + line);
        assert padded == indent + (Spaces(DETAIL_INDENT) + line);
      }
    }
  }

  /** The body survives a round trip: it is empty, or the indent is spaces and no line is a checkbox. */
  ghost predicate Survives(indent: string, body: seq<string>) {
    body == [] || (AllSpaces(indent) && forall k :: 0 <= k < |body| ==> !IsTodo(body[k]))
  }

  /** Rendered details are read back as the block's details exactly when they survive. */
  lemma PaddedBody(indent: string, body: seq<string>)
    requires IsBlank(indent) && IsBody(body)
    ensures var (lines, col) := (Lines(PadAll(indent, body)), |indent| + DETAIL_INDENT);
      && (Survives(indent, body) ==> Extent(lines, col) == |body| && Dedent(lines, col) == body)
      && (!Survives(indent, body) ==> Extent(lines, col) < |body| && !AllContinue(lines, col))
  {
    var lines, col := Lines(PadAll(indent, body)), |indent| + DETAIL_INDENT;
    forall k | 0 <= k < |body|
      ensures (lines[k].Blank? <==> body[k] == "")
      ensures body[k] != "" ==> (IsDetail(lines[k], col) <==> AllSpaces(indent) && !IsTodo(body[k]))
      ensures lines[k].Blank? || IsDetail(lines[k], col) ==> DedentLine(lines[k], col) == body[k]
    {
      PaddedLine(indent, body[k]);
      PadAt(indent, body, k);
      LineAt(PadAll(indent, body), k);
    }
    EmptyIsNoTodo();
    if Survives(indent, body) {
      ExtentAll(lines, col);
      DedentAt(lines, col);
    } else if AllSpaces(indent) {
      var k :| 0 <= k < |body| && IsTodo(body[k]);
      ExtentStops(lines, col, k);
    } else {
      ExtentStops(lines, col, |body| - 1);
    }
  }

  lemma EmptyIsNoTodo()
    ensures !IsTodo("")
  {
  }
}
