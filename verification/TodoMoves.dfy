/** Adding and deleting todos. */
module TodoMoves {
  import opened Optional
  import opened TextLines
  import opened TodoParser
  import opened TodoRender
  import opened TodoEdits

  // ----- add -----

  /** The content a todo is appended to: terminated if it was not. */
  function Terminated(text: string): string {
    if EndsLine(text) then text else text + "\n"
  }

  function NewTodoBlock(text: string, details: string): seq<string> {
    BlockLines("", '-', ' ', text, details)
  }

  function AddText(existing: string, text: string, details: string): string {
    Terminated(existing) + JoinLines(NewTodoBlock(text, details))
  }

  /** The todo an add asks for, at the line the route returns. */
  function Added(existing: string, text: string, details: string): Todo {
    var at := |SplitLines(Terminated(existing))|;
    Todo(at, 0, false, text, JoinFeeds(BodyLines(details)), at + |BodyLines(details)|)
  }

  lemma {:induction false} BlankAppended(lines: seq<Line>, base: nat)
    ensures Parse(lines + [Blank], base) == Parse(lines, base)
  {
    assert Extent([Blank], 0) == 0;
    if OpenColumn(lines).Some? {
      assert [Blank][1..] == [];
    }
    ParseConcat(lines, [Blank], base);
    assert [Blank][1..] == [];
  }

  /** Terminating the file changes no todo. */
  lemma TerminatedParse(existing: string)
    ensures ParseText(Terminated(existing)) == ParseText(existing)
    ensures EndsLine(Terminated(existing))
  {
    if !EndsLine(existing) {
      SplitTerminated(existing);
      LinesConcat(SplitLines(existing), [""]);
      assert Lines([""]) == [Blank] by { assert Lines([]) == []; }
      BlankAppended(Lines(SplitLines(existing)), 0);
    }
  }

  lemma AddedLines(existing: string, block: seq<string>)
    requires EndsLine(existing) && AllBreakFree(block)
    ensures Lines(SplitLines(existing + JoinLines(block))) == Lines(SplitLines(existing)) + Lines(block)
  {
    SplitConcat(existing, JoinLines(block));
    SplitJoin(block);
    LinesConcat(SplitLines(existing), block);
  }

  /** A rendered block with nothing after it. */
  lemma LastBlock(text: string, details: string, x: seq<Line>, at: nat)
    requires Trimmed(text) && x == Lines(NewTodoBlock(text, details))
    ensures |x| == 1 + |BodyLines(details)| && x[0].Checkbox?
    ensures !Survives("", BodyLines(details)) ==> BlockSize(x) < |x|
    ensures Survives("", BodyLines(details)) ==>
              BlockSize(x) == |x| &&
                TodoOf(x, at) == Todo(at, 0, false, text, JoinFeeds(BodyLines(details)), at + |x| - 1)
  {
    RenderedBlock(Head("", '-', ' ', text), details, [], at, NewTodoBlock(text, details), BodyLines(details));
    assert x + [] == x;
    assert x[..|x|] == x;
  }

  lemma AppendedParse(lines: seq<Line>, x: seq<Line>)
    requires x != [] && x[0].Checkbox?
    ensures var todos' := Parse(lines + x, 0);
      && |Parse(lines, 0)| < |todos'| && todos'[|Parse(lines, 0)|].endIdx == |lines| + BlockSize(x) - 1
      && (BlockSize(x) == |x| ==> todos' == Parse(lines, 0) + [TodoOf(x, |lines|)])
  {
    CutAtTodo(lines, x);
    var n := BlockSize(x);
    TodoShift(x[..n], |lines|, |lines|);
    if n == |x| {
      assert x[..n] == x && x[n..] == [];
    }
  }

  /** Lines without stray boundaries, appended to a file that ends its last line. */
  lemma AppendOutcome(existing: string, block: seq<string>, x: seq<Line>)
    requires EndsLine(existing) && AllBreakFree(block) && x == Lines(block) && x != [] && x[0].Checkbox?
    ensures var (todos, todos') := (ParseText(existing), ParseText(existing + JoinLines(block)));
      var at := |SplitLines(existing)|;
      && |todos| < |todos'| && todos'[|todos|].endIdx == at + BlockSize(x) - 1
      && (BlockSize(x) == |x| ==> todos' == todos + [TodoOf(x, at)])
  {
    AddedLines(existing, block);
    AppendedParse(Lines(SplitLines(existing)), x);
  }

  /** A todo `u` of `n` lines was appended where `t`, of `size` lines, was meant. */
  lemma AppendedAsMeant(todos: seq<Todo>, todos': seq<Todo>, t: Todo, u: Todo, at: nat, n: nat, size: nat, whole: bool)
    requires |todos| < |todos'| && todos'[|todos|].endIdx == at + n - 1 && t.endIdx == at + size - 1
    requires n == size ==> todos' == todos + [u]
    requires if whole then n == size && u == t else n < size
    ensures todos' == todos + [t] <==> whole
  {
    if todos' == todos + [t] {
      assert todos'[|todos|] == t;
    }
  }

  /** An add whose fields hold no line boundary. */
  lemma CleanAdd(existing: string, text: string, details: string)
    requires Trimmed(text) && BreakFree(text) && AllBreakFree(BodyLines(details))
    ensures ParseText(AddText(existing, text, details)) == ParseText(existing) + [Added(existing, text, details)] <==>
            Survives("", BodyLines(details))
  {
    TerminatedParse(existing);
    AddedToTerminated(Terminated(existing), text, details, ParseText(existing),
                      ParseText(AddText(existing, text, details)), Added(existing, text, details));
  }

  lemma AddedToTerminated(existing: string, text: string, details: string, todos: seq<Todo>, todos': seq<Todo>, t: Todo)
    requires EndsLine(existing) && Trimmed(text) && BreakFree(text) && AllBreakFree(BodyLines(details))
    requires todos == ParseText(existing) && todos' == ParseText(existing + JoinLines(NewTodoBlock(text, details)))
    requires var (at, body) := (|SplitLines(existing)|, BodyLines(details));
      t == Todo(at, 0, false, text, JoinFeeds(body), at + |body|)
    ensures todos' == todos + [t] <==> Survives("", BodyLines(details))
  {
    var x := Lines(NewTodoBlock(text, details));
    var at := |SplitLines(existing)|;
    BlockBreakFree("", '-', ' ', text, BodyLines(details));
    LastBlock(text, details, x, at);
    AppendOutcome(existing, NewTodoBlock(text, details), x);
    AppendedAsMeant(todos, todos', t, TodoOf(x, at), at, BlockSize(x), |x|, Survives("", BodyLines(details)));
  }

  /** Main result: an add appends exactly the todo asked for, exactly when its fields are clean. */
  lemma AddFrame(existing: string, text: string, details: string)
    requires Trimmed(text)
    ensures ParseText(AddText(existing, text, details)) == ParseText(existing) + [Added(existing, text, details)] <==>
            Clean("", text, BodyLines(details))
  {
    if BreakFree(text) && AllBreakFree(BodyLines(details)) {
      CleanAdd(existing, text, details);
    } else if |ParseText(existing)| < |ParseText(AddText(existing, text, details))| {
      ParsedClean(AddText(existing, text, details), |ParseText(existing)|);
      BodyLinesIsBody(details);
      StrayBreak(BodyLines(details));
    }
  }

  // ----- delete -----

  function DeleteSpan(raw: seq<string>, at: nat, end: nat): seq<string>
    requires at <= end <= |raw|
  {
    raw[..at] + raw[end..]
  }

  /** DELETE: None when the line is not a todo. */
  function DeleteText(text: string, lineIdx: int): Option<string> {
    var raw := SplitLines(text);
    match FindTodo(Parse(Lines(raw), 0), lineIdx)
    case None => None
    case Some(t) =>
      if t.lineIdx <= t.endIdx < |raw| then Some(JoinLines(DeleteSpan(raw, t.lineIdx, t.endIdx + 1))) else None
  }

  /** The todos after a delete of the k-th: the others, those after it moved up. */
  ghost predicate DeletedInPlace(todos: seq<Todo>, todos': seq<Todo>, k: nat)
    requires k < |todos|
  {
    var size := todos[k].endIdx + 1 - todos[k].lineIdx;
    CanShift(todos[k + 1..], -size) && todos' == todos[..k] + Shift(todos[k + 1..], -size)
  }

  lemma DeletedLines(raw: seq<string>, at: nat, end: nat)
    requires at <= end <= |raw| && AllBreakFree(raw)
    ensures ParseText(JoinLines(DeleteSpan(raw, at, end))) == Parse(Lines(raw)[..at] + Lines(raw)[end..], 0)
  {
    var kept := DeleteSpan(raw, at, end);
    assert AllBreakFree(kept);
    WrittenLines(kept);
    LinesOfTwo(raw, at, end);
  }

  lemma LinesOfEnds(raw: seq<string>, at: nat, end: nat, front: seq<string>, back: seq<string>)
    requires at <= end <= |raw| && front == raw[..at] && back == raw[end..]
    ensures Lines(front) == Lines(raw)[..at] && Lines(back) == Lines(raw)[end..]
  {
    LinesSlice(raw, 0, at);
    LinesSlice(raw, end, |raw|);
    assert raw[0..at] == front && raw[end..|raw|] == back;
  }

  lemma LinesOfTwo(raw: seq<string>, at: nat, end: nat)
    requires at <= end <= |raw|
    ensures Lines(DeleteSpan(raw, at, end)) == Lines(raw)[..at] + Lines(raw)[end..]
  {
    LinesOfEnds(raw, at, end, raw[..at], raw[end..]);
    LinesConcat(raw[..at], raw[end..]);
  }

  lemma DeletedParse(lines: seq<Line>, k: nat, at: nat, end: nat)
    requires k < |Parse(lines, 0)| && at == Parse(lines, 0)[k].lineIdx && end == Parse(lines, 0)[k].endIdx + 1
    ensures at < end <= |lines|
    ensures DeletedInPlace(Parse(lines, 0), Parse(lines[..at] + lines[end..], 0), k) <==>
            !Swallows(lines[..at], lines[end..])
  {
    var i, j := Locate(lines, k);
    PartsDeleted(Parse(lines, 0), lines[..at], lines[end..], k, at, end);
  }

  lemma PartsDeleted(todos: seq<Todo>, before: seq<Line>, after: seq<Line>, k: nat, at: nat, end: nat)
    requires k < |todos| && at == todos[k].lineIdx == |before| && end == todos[k].endIdx + 1
    requires todos[..k] == Parse(before, 0) && todos[k + 1..] == Parse(after, end)
    ensures DeletedInPlace(todos, Parse(before + after, 0), k) <==> !Swallows(before, after)
  {
    ParseShift(after, end, at);
    PartsExactly(before, after);
    DeletedIs(todos, Parse(before + after, 0), k, Parse(before, 0), Parse(after, end), Parse(after, at), at, end);
  }

  /** Two parts of a file parse as if alone exactly when no open block swallows lines. */
  lemma PartsExactly(before: seq<Line>, after: seq<Line>)
    ensures Parse(before + after, 0) == Parse(before, 0) + Parse(after, |before|) <==> !Swallows(before, after)
  {
    if Swallows(before, after) {
      SwallowsBreaks(before, after, 0);
    } else {
      ParseConcat(before, after, 0);
    }
  }

  lemma DeletedIs(todos: seq<Todo>, todos': seq<Todo>, k: nat, p: seq<Todo>, q: seq<Todo>, r: seq<Todo>, at: nat,
                  end: nat)
    requires k < |todos| && at == todos[k].lineIdx && end == todos[k].endIdx + 1
    requires p == todos[..k] && q == todos[k + 1..] && CanShift(q, at - end) && r == Shift(q, at - end)
    ensures DeletedInPlace(todos, todos', k) <==> todos' == p + r
  {
  }

  /** The lines before and after the k-th todo's block. */
  ghost predicate Around(text: string, k: nat, before: seq<Line>, after: seq<Line>)
    requires k < |ParseText(text)|
  {
    var (lines, t) := (Lines(SplitLines(text)), ParseText(text)[k]);
    t.lineIdx <= t.endIdx < |lines| && before == lines[..t.lineIdx] && after == lines[t.endIdx + 1..]
  }

  /** Main result: a delete removes one todo and moves the later ones up, exactly when no block left open before it
      swallows lines that followed it. */
  lemma DeleteFrame(text: string, k: nat) returns (before: seq<Line>, after: seq<Line>)
    requires k < |ParseText(text)|
    ensures Around(text, k, before, after)
    ensures var t := ParseText(text)[k];
      && DeleteText(text, t.lineIdx).Some?
      && (DeletedInPlace(ParseText(text), ParseText(DeleteText(text, t.lineIdx).value), k) <==>
         !Swallows(before, after))
  {
    var raw := SplitLines(text);
    var lines := Lines(raw);
    SplitIsBreakFree(text);
    var at, end := DeletedText(text, k);
    before, after := lines[..at], lines[end..];
    DeletedLines(raw, at, end);
    DeletedParse(lines, k, at, end);
  }

  lemma DeletedText(text: string, k: nat) returns (at: nat, end: nat)
    requires k < |ParseText(text)|
    ensures at == ParseText(text)[k].lineIdx && end == ParseText(text)[k].endIdx + 1 && at < end <= |SplitLines(text)|
    ensures DeleteText(text, at) == Some(JoinLines(DeleteSpan(SplitLines(text), at, end)))
  {
    var h := ReportedTodo(Lines(SplitLines(text)), k);
    at, end := ParseText(text)[k].lineIdx, ParseText(text)[k].endIdx + 1;
  }

  lemma {:induction false} ExtentMonotone(lines: seq<Line>, col: nat, col': nat)
    requires col <= col' && Extent(lines, col) == 0
    ensures Extent(lines, col') == 0
  {
    if lines != [] && lines[0].Blank? {
      ExtentMonotone(lines[1..], col, col');
    }
  }

  /** A block still open at the end of the lines is that of the last todo in them. */
  lemma {:induction false} OpenIsLast(lines: seq<Line>, base: nat)
    requires OpenColumn(lines).Some?
    ensures Parse(lines, base) != []
    ensures Parse(lines, base)[|Parse(lines, base)| - 1].indent + DETAIL_INDENT == OpenColumn(lines).value
    decreases |lines|
  {
    if !lines[0].Checkbox? {
      OpenIsLast(lines[1..], base + 1);
    } else {
      var n := BlockSize(lines);
      if AllContinue(lines[1..], Column(lines[0].head)) {
        BlankTail(lines[1..], Column(lines[0].head));
        assert forall k :: 0 <= k < |lines| - n ==> lines[n..][k] == lines[1..][n - 1 + k];
        BlankLines(lines[n..], base + n);
        assert lines[..n][0] == lines[0];
      } else {
        OpenIsLast(lines[n..], base + n);
      }
    }
  }

  /** When the todo before it is indented at least as far, deleting a todo disturbs no other. */
  lemma DeleteAfterDeeper(text: string, k: nat)
    requires k < |ParseText(text)|
    requires k > 0 ==> ParseText(text)[k - 1].indent >= ParseText(text)[k].indent
    ensures DeleteText(text, ParseText(text)[k].lineIdx).Some?
    ensures DeletedInPlace(ParseText(text), ParseText(DeleteText(text, ParseText(text)[k].lineIdx).value), k)
  {
    var before, after := DeleteFrame(text, k);
    DeeperSwallowsNothing(Lines(SplitLines(text)), k, before, after);
  }

  lemma DeeperSwallowsNothing(lines: seq<Line>, k: nat, before: seq<Line>, after: seq<Line>)
    requires k < |Parse(lines, 0)|
    requires k > 0 ==> Parse(lines, 0)[k - 1].indent >= Parse(lines, 0)[k].indent
    requires var t := Parse(lines, 0)[k];
      t.lineIdx <= t.endIdx < |lines| && before == lines[..t.lineIdx] && after == lines[t.endIdx + 1..]
    ensures !Swallows(before, after)
  {
    var at, end := Locate(lines, k);
    LocatedIndent(lines, k, at, end);
    if OpenColumn(before).Some? {
      OpenIsLast(before, 0);
      ExtentMonotone(after, Column(lines[at].head), OpenColumn(before).value);
    }
  }

  lemma LocatedIndent(lines: seq<Line>, k: nat, at: nat, end: nat)
    requires k < |Parse(lines, 0)| && at < end <= |lines| && lines[at].Checkbox?
    requires Parse(lines, 0)[k] == TodoOf(lines[at..end], at)
    ensures Parse(lines, 0)[k].indent + DETAIL_INDENT == Column(lines[at].head)
  {
    assert lines[at..end][0] == lines[at];
  }

  /** The case that goes wrong, for any three such lines: the third, too shallow for the second todo, becomes a
      detail of the first. */
  lemma DeleteSwallows(ha: Head, hb: Head, a: string, b: string, c: string)
    requires |ha.indent| == 0 && |hb.indent| == 2 && BreakFree(a) && BreakFree(b) && BreakFree(c)
    requires Classify(a) == Checkbox(ha) && Classify(b) == Checkbox(hb) && Classify(c) == Plain(c, 6)
    ensures var text := JoinLines([a, b, c]);
      && |ParseText(text)| == 2 && ParseText(text)[1].lineIdx == 1 && DeleteText(text, 1).Some?
      && !DeletedInPlace(ParseText(text), ParseText(DeleteText(text, 1).value), 1)
  {
    var text := JoinLines([a, b, c]);
    SplitJoin([a, b, c]);
    ThreeLines(ha, hb, a, b, c);
    LinesParsed(ha, hb, c);
    assert ParseText(text) == Parse([Checkbox(ha), Checkbox(hb), Plain(c, 6)], 0);
    var before, after := DeleteFrame(text, 1);
    SwallowingLines(ha, c, before, after);
  }

  lemma NestedExample() returns (ha: Head, hb: Head, a: string, b: string, c: string)
    ensures |ha.indent| == 0 && |hb.indent| == 2 && BreakFree(a) && BreakFree(b) && BreakFree(c)
    ensures Classify(a) == Checkbox(ha) && Classify(b) == Checkbox(hb) && Classify(c) == Plain(c, 6)
    ensures a == "" + "- [ ] " + "a" && b == "  " + "- [ ] " + "b" && c == Pad("", "c")
  {
    ha, a := OpenTodoLine("", "a");
    hb, b := OpenTodoLine("  ", "b");
    c := Pad("", "c");
    PlainC(c);
  }

  /** One such file: a nested todo followed by a line indented six spaces. */
  lemma DeleteCanSwallow() returns (text: string)
    ensures |ParseText(text)| == 2 && ParseText(text)[1].lineIdx == 1 && DeleteText(text, 1).Some?
    ensures !DeletedInPlace(ParseText(text), ParseText(DeleteText(text, 1).value), 1)
  {
    var ha, hb, a, b, c := NestedExample();
    DeleteSwallows(ha, hb, a, b, c);
    text := JoinLines([a, b, c]);
  }

  lemma PlainC(c: string)
    requires c == Pad("", "c")
    ensures Classify(c) == Plain(c, 6) && BreakFree(c)
  {
    assert c == Spaces(6) + "c";
    assert !IsSpace(c[6]) && forall k :: 0 <= k < 6 ==> IsSpace(c[k]);
    SkipSpaceIs(c, 0, 6);
    LeadingSpacesConcat(Spaces(6), "c");
  }

  lemma ThreeLines(ha: Head, hb: Head, a: string, b: string, c: string)
    requires Classify(a) == Checkbox(ha) && Classify(b) == Checkbox(hb) && Classify(c) == Plain(c, 6)
    ensures Lines([a, b, c]) == [Checkbox(ha), Checkbox(hb), Plain(c, 6)]
  {
    LineAt([a, b, c], 0);
    LineAt([a, b, c], 1);
    LineAt([a, b, c], 2);
  }

  lemma LinesParsed(ha: Head, hb: Head, c: string)
    requires |ha.indent| == 0 && |hb.indent| == 2
    ensures var todos := Parse([Checkbox(ha), Checkbox(hb), Plain(c, 6)], 0);
      |todos| == 2 && todos[1].lineIdx == 1 && todos[1].endIdx == 1
  {
    var all := [Checkbox(ha), Checkbox(hb), Plain(c, 6)];
    assert all[1..] == [Checkbox(hb), Plain(c, 6)] && all[1..][1..] == [Plain(c, 6)] && [Plain(c, 6)][1..] == [];
    assert Parse([Plain(c, 6)], 2) == [];
  }

  lemma SwallowingLines(ha: Head, c: string, before: seq<Line>, after: seq<Line>)
    requires |ha.indent| == 0 && before == [Checkbox(ha)] && after == [Plain(c, 6)]
    ensures Swallows(before, after)
  {
    assert before[1..] == [] && after[1..] == [];
  }
}
