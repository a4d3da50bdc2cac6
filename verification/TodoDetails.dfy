/** Edits that leave the details alone. */
module TodoDetails {
  import opened Optional
  import opened Sequences
  import opened TextLines
  import opened TodoParser
  import opened TodoRender
  import opened TodoEdits

  // "Leave the details unchanged": what happens to the details of a todo when only its box or its text is
  // edited.  The route re-renders the parsed details, and rendering normalises them.

  /** No line is blank at either end, and no line has white space at its end. */
  predicate Canonical(details: string) {
    details == "" ||
    (var lines := SplitFeeds(details);
     lines[0] != "" && lines[|lines| - 1] != "" && forall k | 0 <= k < |lines| :: TrimmedLine(lines[k]))
  }

  // ----- lengths under normalisation -----

  lemma UnixShorter(s: string)
    ensures |UnixFeeds(s)| <= |s|
  {
  }

  lemma LStripShorter(s: string)
    ensures |LStripFeeds(s)| <= |s|
    ensures s != "" && s[0] == '\n' ==> |LStripFeeds(s)| < |s|
  {
  }

  lemma RStripFeedsShorter(s: string)
    ensures |RStripFeeds(s)| <= |s|
  {
  }

  lemma {:induction false} RStripAllShorter(lines: seq<string>)
    ensures |JoinFeeds(RStripAll(lines))| <= |JoinFeeds(lines)|
  {
    if lines != [] {
      RStripIs(lines[0]);
      RStripAllShorter(lines[1..]);
      assert RStripAll(lines)[1..] == RStripAll(lines[1..]);
    }
  }

  lemma {:induction false} PrefixShorter(lines: seq<string>, n: nat)
    requires n <= |lines|
    ensures |JoinFeeds(lines[..n])| <= |JoinFeeds(lines)|
  {
    if n > 0 {
      PrefixShorter(lines[1..], n - 1);
      assert lines[..n][1..] == lines[1..][..n - 1];
    }
  }

  lemma BodyShorter(details: string)
    ensures |JoinFeeds(BodyLines(details))| <= |RStripFeeds(LStripFeeds(details))|
  {
    var body := RStripFeeds(LStripFeeds(details));
    if body != "" {
      var lines := SplitFeeds(UnixFeeds(body));
      UnixShorter(body);
      JoinSplitFeeds(UnixFeeds(body));
      RStripAllShorter(lines);
      DropEmptyTailIs(RStripAll(lines));
      PrefixShorter(RStripAll(lines), |DropEmptyTail(RStripAll(lines))|);
      assert RStripAll(lines)[..|DropEmptyTail(RStripAll(lines))|] == DropEmptyTail(RStripAll(lines));
    }
  }

  // ----- canonical details are exactly those that rendering keeps -----

  predicate NoCrLf(s: string) {
    forall k | 0 <= k < |s| - 1 :: !(s[k] == '\r' && s[k + 1] == '\n')
  }

  lemma {:induction false} UnixKeeps(s: string)
    requires NoCrLf(s)
    ensures UnixFeeds(s) == s
  {
    if s != "" {
      UnixKeeps(s[1..]);
    }
  }

  lemma {:induction false} TrimmedHasNoCrLf(s: string)
    requires forall k :: 0 <= k < |SplitFeeds(s)| ==> TrimmedLine(SplitFeeds(s)[k])
    ensures NoCrLf(s)
    decreases |s|
  {
    var n := FeedAt(s);
    FeedAtStops(s);
    if n < |s| {
      var rest := s[n + 1..];
      assert SplitFeeds(s)[0] == s[..n];
      forall k | 0 <= k < |SplitFeeds(rest)| ensures TrimmedLine(SplitFeeds(rest)[k]) {
        assert SplitFeeds(rest)[k] == SplitFeeds(s)[k + 1];
      }
      TrimmedHasNoCrLf(rest);
      forall k | 0 <= k < |s| - 1 ensures !(s[k] == '\r' && s[k + 1] == '\n') {
        if k > n {
          assert s[k] == rest[k - n - 1] && s[k + 1] == rest[k - n];
        } else if k + 1 == n {
          assert s[..n][n - 1] == s[k];
          assert IsSpace('\r');
        }
      }
    }
  }

  lemma {:induction false} RStripAllKeeps(lines: seq<string>)
    requires forall k :: 0 <= k < |lines| ==> TrimmedLine(lines[k])
    ensures RStripAll(lines) == lines
  {
    if lines != [] {
      RStripOfTrimmed(lines[0]);
      assert TrimmedLine(lines[0]);
      RStripAllKeeps(lines[1..]);
    }
  }

  /** The ends of a text are the ends of its first and last line. */
  lemma {:induction false} FeedEnds(s: string)
    requires s != ""
    ensures SplitFeeds(s)[0] != "" <==> s[0] != '\n'
    ensures SplitFeeds(s)[|SplitFeeds(s)| - 1] != "" <==> s[|s| - 1] != '\n'
    decreases |s|
  {
    var n := FeedAt(s);
    FeedAtStops(s);
    if n < |s| {
      var rest := s[n + 1..];
      if rest != "" {
        FeedEnds(rest);
        assert rest[|rest| - 1] == s[|s| - 1];
        assert SplitFeeds(s)[|SplitFeeds(s)| - 1] == SplitFeeds(rest)[|SplitFeeds(rest)| - 1];
      }
    }
  }

  lemma CanonicalKept(details: string)
    requires Canonical(details) && details != ""
    ensures BodyLines(details) == SplitFeeds(details)
  {
    FeedEnds(details);
    TrimmedHasNoCrLf(details);
    UnixKeeps(details);
    RStripAllKeeps(SplitFeeds(details));
  }

  /** Rendering gives the same details back exactly when they are canonical. */
  lemma RenderingKeepsCanonical(details: string)
    ensures JoinFeeds(BodyLines(details)) == details <==> Canonical(details)
  {
    var body := BodyLines(details);
    if Canonical(details) && details != "" {
      CanonicalKept(details);
      JoinSplitFeeds(details);
    } else if JoinFeeds(body) == details && details != "" {
      BodyLinesIsBody(details);
      SplitJoinFeeds(body);
      BodyShorter(details);
      LStripShorter(details);
      RStripFeedsShorter(LStripFeeds(details));
      FeedEnds(details);
    }
  }

  // ----- the details the parser reports -----

  function Feeds(s: string): nat {
    if s == "" then 0 else (if s[0] == '\n' then 1 else 0) + Feeds(s[1..])
  }

  lemma {:induction false} FeedsConcat(a: string, b: string)
    ensures Feeds(a + b) == Feeds(a) + Feeds(b)
  {
    if a == "" {
      assert a + b == b;
    } else {
      assert (a + b)[1..] == a[1..] + b;
      FeedsConcat(a[1..], b);
    }
  }

  lemma {:induction false} NoFeeds(s: string)
    requires '\n' !in s
    ensures Feeds(s) == 0
  {
    if s != "" {
      assert s[0] in s;
      NoFeeds(s[1..]);
    }
  }

  lemma {:induction false} LineCount(s: string)
    ensures |SplitFeeds(s)| == 1 + Feeds(s)
    decreases |s|
  {
    var n := FeedAt(s);
    FeedAtStops(s);
    NoFeeds(s[..n]);
    if n == |s| {
      assert s[..n] == s;
    } else {
      LineCount(s[n + 1..]);
      assert s == s[..n] + ("\n" + s[n + 1..]);
      FeedsConcat(s[..n], "\n" + s[n + 1..]);
      assert ("\n" + s[n + 1..])[1..] == s[n + 1..];
    }
  }

  lemma {:induction false} StripFewerFeeds(s: string)
    ensures Feeds(LStripFeeds(s)) <= Feeds(s) && (OnlyFeeds(s) ==> OnlyFeeds(LStripFeeds(s)))
  {
    if s != "" && s[0] == '\n' {
      StripFewerFeeds(s[1..]);
    }
  }

  lemma {:induction false} RStripFewerFeeds(s: string)
    ensures Feeds(RStripFeeds(s)) <= Feeds(s) && (OnlyFeeds(s) ==> OnlyFeeds(RStripFeeds(s)))
  {
    if s != "" && s[|s| - 1] == '\n' {
      RStripFewerFeeds(s[..|s| - 1]);
      FeedsConcat(s[..|s| - 1], s[|s| - 1..]);
      assert s == s[..|s| - 1] + s[|s| - 1..];
    }
  }

  lemma {:induction false} SplitOnlyFeeds(s: string)
    requires OnlyFeeds(s)
    ensures AllBreakFree(SplitFeeds(s))
    decreases |s|
  {
    var n := FeedAt(s);
    FeedAtStops(s);
    if n < |s| {
      SplitOnlyFeeds(s[n + 1..]);
    }
  }

  lemma {:induction false} RStripAllBreakFree(lines: seq<string>)
    requires AllBreakFree(lines)
    ensures AllBreakFree(RStripAll(lines))
  {
    forall k | 0 <= k < |lines| ensures BreakFree(RStripAll(lines)[k]) {
      RStripAt(lines, k);
      RStripIs(lines[k]);
      assert BreakFree(lines[k]);
    }
  }

  /** Body lines of parsed details: no stray line boundary, and no more lines than the details have. */
  lemma BodyOfParsed(details: string)
    requires OnlyFeeds(details)
    ensures AllBreakFree(BodyLines(details))
    ensures |BodyLines(details)| <= 1 + Feeds(details)
    ensures details == "" ==> BodyLines(details) == []
  {
    StripFewerFeeds(details);
    RStripFewerFeeds(LStripFeeds(details));
    var body := RStripFeeds(LStripFeeds(details));
    assert IsBreak('\r');
    UnixKeeps(body);
    SplitOnlyFeeds(body);
    LineCount(body);
    RStripAllBreakFree(SplitFeeds(body));
    DropEmptyTailIs(RStripAll(SplitFeeds(body)));
  }

  lemma ReportedLine(raw: seq<string>, col: nat, j: nat)
    requires AllBreakFree(raw) && j < |raw| && Extent(Lines(raw), col) == |raw|
    ensures var line := DedentLine(Lines(raw)[j], col);
      BreakFree(line) && !IsTodo(line) && (j == |raw| - 1 ==> line != "")
  {
    LineAt(raw, j);
    EmptyIsNoTodo();
    if !Lines(raw)[j].Blank? && !IsDetail(Lines(raw)[j], col) {
      ExtentStops(Lines(raw), col, j);
    }
    if Lines(raw)[j].Plain? {
      DedentedDetail(raw[j], col);
    }
  }

  /** Dedented lines of one block: no stray line boundary, no checkbox, not ending in an empty line. */
  ghost predicate AreDetails(lines: seq<string>) {
    && AllBreakFree(lines) && (lines != [] ==> lines[|lines| - 1] != "")
    && forall j :: 0 <= j < |lines| ==> !IsTodo(lines[j])
  }

  lemma BodyAreDetails(body: seq<string>, col: nat)
    requires AllBreakFree(body) && Extent(Lines(body), col) == |body|
    ensures AreDetails(Dedent(Lines(body), col)) && |Dedent(Lines(body), col)| == |body|
  {
    var lines := Dedent(Lines(body), col);
    DedentAt(Lines(body), col);
    forall j | 0 <= j < |lines|
      ensures BreakFree(lines[j]) && !IsTodo(lines[j])
      ensures j == |lines| - 1 ==> lines[j] != ""
    {
      ReportedLine(body, col, j);
    }
  }

  /** The dedented lines behind the details of the k-th todo. */
  lemma DetailLines(text: string, k: nat) returns (lines: seq<string>)
    requires k < |ParseText(text)|
    ensures var t := ParseText(text)[k];
      t.details == JoinFeeds(lines) && |lines| == t.endIdx - t.lineIdx && AreDetails(lines)
  {
    var raw := SplitLines(text);
    SplitIsBreakFree(text);
    var at, end := Locate(Lines(raw), k);
    var block, body := Lines(raw)[at..end], raw[at + 1..end];
    LinesSlice(raw, at + 1, end);
    assert block[1..] == Lines(body);
    assert AllBreakFree(body);
    BodyAreDetails(body, Column(block[0].head));
    lines := Dedent(block[1..], Column(block[0].head));
  }

  /** Cutting leading spaces off a detail line leaves a line with something in it, and no checkbox. */
  lemma DedentedDetail(line: string, col: nat)
    requires LeadingSpaces(line) >= col && !IsBlank(line) && !IsTodo(line)
    ensures DropChars(line, col) != "" && !IsTodo(DropChars(line, col))
  {
    LeadingSpacesAre(line);
    var pad := line[..col];
    assert line == pad + line[col..];
    SpaceChars();
    assert forall k :: 0 <= k < col ==> pad[k] == line[k];
    MatchAfterBlank(pad, line[col..]);
  }

  lemma {:induction false} LeadingSpacesAre(line: string)
    ensures forall k :: 0 <= k < LeadingSpaces(line) ==> line[k] == ' '
  {
    if line != "" && line[0] == ' ' {
      LeadingSpacesAre(line[1..]);
    }
  }

  lemma DetailsCount(lines: seq<string>)
    requires AllBreakFree(lines) && lines != []
    ensures |lines| == 1 + Feeds(JoinFeeds(lines)) && SplitFeeds(JoinFeeds(lines)) == lines
  {
    assert IsBreak('\n');
    SplitJoinFeeds(lines);
    LineCount(JoinFeeds(lines));
  }

  // ----- main result -----

  /** What leaving the details out of an edit is meant to do. */
  function OnlyHeadEdited(t: Todo, e: Edit): Todo {
    t.(done := NewDone(t, e), text := NewText(t, e))
  }

  lemma LastLineJoined(lines: seq<string>)
    requires lines != [] && lines[|lines| - 1] != ""
    ensures JoinFeeds(lines) != ""
  {
  }

  /** Details that are canonical and not lost to the indent are kept by an edit that gives none. */
  lemma CanonicalStays(t: Todo, e: Edit, indent: string, lines: seq<string>)
    requires e.details.None? && Canonical(t.details) && (t.details == "" || AllSpaces(indent))
    requires t.details == JoinFeeds(lines) && t.lineIdx + |lines| == t.endIdx && AreDetails(lines)
    ensures BodyLines(t.details) == lines && Survives(indent, lines) && Updated(t, e) == OnlyHeadEdited(t, e)
  {
    if lines != [] {
      DetailsCount(lines);
      LastLineJoined(lines);
      CanonicalKept(t.details);
    }
  }

  /** Otherwise the todo left behind differs: in its details, or in where it ends. */
  lemma OthersChange(t: Todo, e: Edit, indent: string, lines: seq<string>, left: Todo)
    requires e.details.None? && !(Canonical(t.details) && (t.details == "" || AllSpaces(indent)))
    requires if Survives(indent, BodyLines(t.details)) then left == Updated(t, e)
             else left.endIdx < Updated(t, e).endIdx
    requires t.lineIdx + |lines| == t.endIdx && |BodyLines(t.details)| <= |lines|
    ensures left != OnlyHeadEdited(t, e)
  {
    RenderingKeepsCanonical(t.details);
  }

  /** Comparing the todo an edit without details should leave with the one it leaves. */
  lemma ComparedTodos(todos: seq<Todo>, todos': seq<Todo>, k: nat, t: Todo, e: Edit, indent: string, lines: seq<string>)
    requires k < |todos| && t == todos[k] && e.details.None?
    requires if Survives(indent, BodyLines(t.details)) then EditedInPlace(todos, todos', k, Updated(t, e))
             else k < |todos'| && todos'[k].endIdx < Updated(t, e).endIdx
    requires t.details == JoinFeeds(lines) && t.lineIdx + |lines| == t.endIdx && AreDetails(lines)
    requires |BodyLines(t.details)| <= |lines|
    ensures todos' == todos[k := OnlyHeadEdited(t, e)] <==>
            Canonical(t.details) && (t.details == "" || AllSpaces(indent))
  {
    if Canonical(t.details) && (t.details == "" || AllSpaces(indent)) {
      CanonicalStays(t, e, indent, lines);
      NoShift(todos, k, Updated(t, e));
    } else {
      assert k < |todos'| by {
        if Survives(indent, BodyLines(t.details)) { assert todos'[k] == Updated(t, e); }
      }
      OthersChange(t, e, indent, lines, todos'[k]);
    }
  }

  /** An edit that gives no details leaves everything but the box and the text as it was, exactly when the text holds no
      line boundary, the details are canonical and, if there are any, the todo is indented by spaces alone. */
  lemma EditWithoutDetails(text: string, k: nat, e: Edit)
    requires k < |ParseText(text)| && e.details.None?
    ensures var todos := ParseText(text);
      var t := todos[k];
      && HeadOf(text, k).Some? && UpdateText(text, t.lineIdx, e).Some?
      && (ParseText(UpdateText(text, t.lineIdx, e).value) == todos[k := OnlyHeadEdited(t, e)] <==>
          && BreakFree(NewText(t, e)) && Canonical(t.details)
          && (t.details == "" || AllSpaces(HeadOf(text, k).value.indent)))
  {
    var t := ParseText(text)[k];
    var h := UpdateOutcome(text, k, e);
    var todos' := ParseText(UpdateText(text, t.lineIdx, e).value);
    if BreakFree(NewText(t, e)) {
      var lines := CountedDetails(text, k);
      ComparedTodos(ParseText(text), todos', k, t, e, h.indent, lines);
    } else if todos' == ParseText(text)[k := OnlyHeadEdited(t, e)] {
      ParsedClean(UpdateText(text, t.lineIdx, e).value, k);
    }
  }

  lemma CountedDetails(text: string, k: nat) returns (lines: seq<string>)
    requires k < |ParseText(text)|
    ensures var t := ParseText(text)[k];
      && t.details == JoinFeeds(lines) && |lines| == t.endIdx - t.lineIdx && AreDetails(lines)
      && AllBreakFree(BodyLines(t.details)) && |BodyLines(t.details)| <= |lines|
  {
    ParsedClean(text, k);
    BodyOfParsed(ParseText(text)[k].details);
    lines := DetailLines(text, k);
    if lines != [] { DetailsCount(lines); }
  }

  lemma NoShift(todos: seq<Todo>, k: nat, after: Todo)
    requires k < |todos| && after.endIdx == todos[k].endIdx
    ensures forall todos' :: EditedInPlace(todos, todos', k, after) ==> todos' == todos[k := after]
  {
    ShiftByNone(todos[k + 1..]);
    Replaced(todos, k, after);
  }

  lemma ShiftByNone(todos: seq<Todo>)
    ensures CanShift(todos, 0) ==> Shift(todos, 0) == todos
  {
  }

  // ----- details that an edit changes -----

  /** A todo, a blank line, and a detail line: the details start with an empty line, so they are not canonical. */
  lemma BlankFirstDetail(h: Head, a: string, c: string)
    requires Classify(a) == Checkbox(h) && h.indent == "" && BreakFree(a) && c == Pad("", "c")
    ensures var todos := ParseText(JoinLines([a, "", c]));
      |todos| == 1 && todos[0].lineIdx == 0 && todos[0].details == "\nc"
  {
    DetailC(c);
    SplitJoin([a, "", c]);
    ThreeClassified(a, c, Checkbox(h), Classify(c));
    BlankFirstParsed(h, Classify(c));
  }

  lemma ThreeClassified(a: string, c: string, x: Line, y: Line)
    requires Classify(a) == x && Classify(c) == y
    ensures Lines([a, "", c]) == [x, Blank, y]
  {
    var lines := Lines([a, "", c]);
    LineAt([a, "", c], 0);
    LineAt([a, "", c], 1);
    LineAt([a, "", c], 2);
    assert Classify("") == Blank;
    assert |lines| == 3 && lines[0] == x && lines[1] == Blank && lines[2] == y;
  }

  lemma BlankFirstParsed(h: Head, detail: Line)
    requires h.indent == "" && IsDetail(detail, 6) && DedentLine(detail, 6) == "c"
    ensures var todos := Parse([Checkbox(h), Blank, detail], 0);
      |todos| == 1 && todos[0].lineIdx == 0 && todos[0].details == "\nc"
  {
    var lines, tail, last := [Checkbox(h), Blank, detail], [Blank, detail], [detail];
    assert lines[1..] == tail && tail[1..] == last && last[1..] == [];
    assert Extent(last, 6) == 1 && Extent(tail, 6) == 2;
    assert Dedent(last, 6) == ["c"] && Dedent(tail, 6) == ["", "c"];
    assert lines + [] == lines;
    ParseFirst(lines, lines, [], 0);
    assert ["", "c"][1..] == ["c"];
    assert JoinFeeds(["", "c"]) == "\nc";
  }

  lemma DetailC(c: string)
    requires c == Pad("", "c")
    ensures IsDetail(Classify(c), 6) && DedentLine(Classify(c), 6) == "c" && BreakFree(c)
  {
    PaddedLine("", "c");
    assert c == Spaces(6) + "c";
  }

  /** One such file: ticking its todo, with no details given, drops the blank line. */
  lemma EditCanChangeDetails() returns (text: string, e: Edit)
    ensures |ParseText(text)| == 1 && ParseText(text)[0].lineIdx == 0 && e == Edit(Some(true), None, None)
    ensures UpdateText(text, 0, e).Some?
    ensures ParseText(UpdateText(text, 0, e).value) != [OnlyHeadEdited(ParseText(text)[0], e)]
  {
    var h, a := OpenTodoLine("", "a");
    var c := Pad("", "c");
    text, e := JoinLines([a, "", c]), Edit(Some(true), None, None);
    BlankFirstDetail(h, a, c);
    ParsedClean(text, 0);
    EditWithoutDetails(text, 0, e);
    assert SplitFeeds("\nc")[0] == "";
    assert ParseText(text)[0 := OnlyHeadEdited(ParseText(text)[0], e)] == [OnlyHeadEdited(ParseText(text)[0], e)];
  }
}
