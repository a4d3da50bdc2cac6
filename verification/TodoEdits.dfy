/** What a PATCH does to TODO.md. */
module TodoEdits {
  import opened Optional
  import opened Sequences
  import opened TextLines
  import opened TodoParser
  import opened TodoRender

  // The PATCH route rewrites the file by the line span the parser reported; the results say what the parser reports
  // about the rewritten file.

  // ----- lines and raw text -----

  lemma LinesConcat(a: seq<string>, b: seq<string>)
    ensures Lines(a + b) == Lines(a) + Lines(b)
  {
    if a == [] {
      assert a + b == b;
    } else {
      assert (a + b)[1..] == a[1..] + b;
    }
  }

  lemma LinesSlice(raw: seq<string>, at: nat, end: nat)
    requires at <= end <= |raw|
    ensures Lines(raw)[at..end] == Lines(raw[at..end])
  {
    var a, b := Lines(raw)[at..end], Lines(raw[at..end]);
    forall k | 0 <= k < end - at ensures a[k] == b[k] {
      LineAt(raw, at + k);
      LineAt(raw[at..end], k);
    }
  }

  /** What a match says about the line it came from. */
  lemma MatchFacts(line: string)
    requires IsTodo(line)
    ensures var h := MatchTodo(line).value;
      IsBlank(h.indent) && IsMarker(h.marker) && IsCheck(h.check) && Trimmed(h.text) &&
      (BreakFree(line) ==> BreakFree(h.indent) && BreakFree(h.text))
  {
    var i := SkipSpace(line, 0);
    SkipSpaceStops(line, 0);
    TailTrimmed(line, SkipSpace(line, i + 1) + 3);
  }

  /** Skipping white space and right-trimming leaves a trimmed piece of the line. */
  lemma TailTrimmed(line: string, from: nat)
    requires from <= |line|
    ensures var text := RStrip(line[SkipSpace(line, from)..]);
      Trimmed(text) && (BreakFree(line) ==> BreakFree(text))
  {
    var k := SkipSpace(line, from);
    SkipSpaceStops(line, from);
    var tail := line[k..];
    RStripIs(tail);
    assert forall m :: 0 <= m < |RStrip(tail)| ==> RStrip(tail)[m] == tail[m];
  }

  // ----- parsed fields hold no stray line boundary -----

  predicate OnlyFeeds(s: string) {
    forall k | 0 <= k < |s| :: IsBreak(s[k]) ==> s[k] == '\n'
  }

  lemma {:induction false} JoinOnlyFeeds(lines: seq<string>)
    ensures AllBreakFree(lines) ==> OnlyFeeds(JoinFeeds(lines))
    ensures OnlyFeeds(JoinFeeds(lines)) ==> forall k :: 0 <= k < |lines| ==> OnlyFeeds(lines[k])
  {
    if |lines| == 1 {
      assert JoinFeeds(lines) == lines[0];
    } else if lines != [] {
      JoinOnlyFeeds(lines[1..]);
      var (a, b) := (lines[0] + "\n", JoinFeeds(lines[1..]));
      assert JoinFeeds(lines) == a + b;
      assert forall k :: 0 <= k < |b| ==> (a + b)[|a| + k] == b[k];
      assert forall k :: 0 <= k < |lines[0]| ==> (a + b)[k] == lines[0][k];
      assert forall k :: 1 <= k < |lines| ==> lines[k] == lines[1..][k - 1];
    }
  }

  lemma BlockClean(block: seq<Line>, raw: seq<string>, at: nat)
    requires AllBreakFree(raw) && block == Lines(raw) && block != [] && block[0].Checkbox?
    ensures BreakFree(TodoOf(block, at).text) && OnlyFeeds(TodoOf(block, at).details)
  {
    HeadFacts(raw, 0);
    var col := Column(block[0].head);
    var body := Dedent(block[1..], col);
    DedentAt(block[1..], col);
    forall k | 0 <= k < |body| ensures BreakFree(body[k]) {
      LineAt(raw, k + 1);
    }
    JoinOnlyFeeds(body);
  }

  /** The groups of a checkbox line. */
  ghost predicate GoodHead(h: Head) {
    IsBlank(h.indent) && IsMarker(h.marker) && IsCheck(h.check) && Trimmed(h.text) &&
    BreakFree(h.indent) && BreakFree(h.text)
  }

  lemma HeadFacts(raw: seq<string>, at: nat)
    requires AllBreakFree(raw) && at < |raw| && Lines(raw)[at].Checkbox?
    ensures GoodHead(Lines(raw)[at].head)
  {
    LineAt(raw, at);
    MatchFacts(raw[at]);
  }

  lemma ParsedClean(text: string, k: nat)
    requires k < |ParseText(text)|
    ensures BreakFree(ParseText(text)[k].text) && OnlyFeeds(ParseText(text)[k].details)
  {
    var raw := SplitLines(text);
    SplitIsBreakFree(text);
    var at, end := Locate(Lines(raw), k);
    LinesSlice(raw, at, end);
    BlockClean(Lines(raw)[at..end], raw[at..end], at);
  }

  // ----- writing lines and reading them back -----

  lemma WrittenLines(raw: seq<string>)
    requires AllBreakFree(raw)
    ensures ParseText(JoinLines(raw)) == Parse(Lines(raw), 0)
  {
    SplitJoin(raw);
  }

  function ReplaceSpan(raw: seq<string>, at: nat, end: nat, block: seq<string>): seq<string>
    requires at <= end <= |raw|
  {
    raw[..at] + block + raw[end..]
  }

  // ----- a rendered block among other lines -----

  /** A checkbox, its padded body and what follows: the block is the checkbox and its body, if that continues. */
  lemma BlockAmongLines(h: Head, padded: seq<Line>, rest: seq<Line>, at: nat)
    requires Extent(rest, Column(h)) == 0
    ensures var x := [Checkbox(h)] + padded + rest;
      && BlockSize(x) == 1 + Extent(padded, Column(h))
      && x[1 + |padded|..] == rest
      && TodoOf(x[..1 + |padded|], at) ==
         Todo(at, |h.indent|, IsDone(h), h.text, JoinFeeds(Dedent(padded, Column(h))), at + |padded|)
  {
    var x := [Checkbox(h)] + padded + rest;
    ThreeParts(Checkbox(h), padded, rest);
    ExtentConcat(padded, rest, Column(h));
  }

  /** A rendered block is read back whole exactly when its body survives; either way the rest follows on. */
  lemma RenderedBlock(h: Head, details: string, rest: seq<Line>, at: nat, block: seq<string>, body: seq<string>)
    requires IsBlank(h.indent) && IsMarker(h.marker) && IsCheck(h.check) && Trimmed(h.text)
    requires Extent(rest, Column(h)) == 0
    requires block == BlockLines(h.indent, h.marker, h.check, h.text, details) && body == BodyLines(details)
    ensures var x := Lines(block) + rest;
      && |x| == 1 + |body| + |rest| && x[0] == Checkbox(h)
      && (!Survives(h.indent, body) ==> BlockSize(x) < 1 + |body|)
      && (Survives(h.indent, body) ==>
            && BlockSize(x) == 1 + |body| && x[1 + |body|..] == rest
            && TodoOf(x[..1 + |body|], at) == Todo(at, |h.indent|, IsDone(h), h.text, JoinFeeds(body), at + |body|))
  {
    var padded := Lines(PadAll(h.indent, body));
    HeadLineIsCheckbox(h.indent, h.marker, h.check, h.text);
    assert Lines(block) == [Checkbox(h)] + padded;
    BodyLinesIsBody(details);
    PaddedBody(h.indent, body);
    BlockAmongLines(h, padded, rest, at);
  }

  // ----- update -----

  datatype Edit = Edit(done: Option<bool>, text: Option<string>, details: Option<string>)

  function NewDone(t: Todo, e: Edit): bool {
    if e.done.Some? then e.done.value else t.done
  }

  function NewText(t: Todo, e: Edit): string {
    if e.text.Some? then Strip(e.text.value) else t.text
  }

  function NewDetails(t: Todo, e: Edit): string {
    if e.details.Some? then e.details.value else t.details
  }

  function FindTodo(todos: seq<Todo>, lineIdx: int): Option<Todo> {
    if todos == [] then None
    else if todos[0].lineIdx == lineIdx then Some(todos[0])
    else FindTodo(todos[1..], lineIdx)
  }

  function UpdatedBlock(h: Head, t: Todo, e: Edit): seq<string> {
    BlockLines(h.indent, h.marker, if NewDone(t, e) then 'x' else ' ', NewText(t, e), NewDetails(t, e))
  }

  lemma {:induction false} FindTodoAt(todos: seq<Todo>, k: nat)
    requires k < |todos| && forall j :: 0 <= j < k ==> todos[j].lineIdx != todos[k].lineIdx
    ensures FindTodo(todos, todos[k].lineIdx) == Some(todos[k])
  {
    if k > 0 {
      FindTodoAt(todos[1..], k - 1);
    }
  }

  lemma {:induction false} FindTodoFinds(todos: seq<Todo>, lineIdx: int)
    ensures FindTodo(todos, lineIdx) == None <==> forall k :: 0 <= k < |todos| ==> todos[k].lineIdx != lineIdx
    ensures FindTodo(todos, lineIdx).Some? ==>
              exists k :: 0 <= k < |todos| && todos[k] == FindTodo(todos, lineIdx).value && todos[k].lineIdx == lineIdx
  {
    if todos != [] {
      FindTodoFinds(todos[1..], lineIdx);
      assert forall k :: 1 <= k < |todos| ==> todos[k] == todos[1..][k - 1];
      if todos[0].lineIdx == lineIdx {
        assert todos[0] == FindTodo(todos, lineIdx).value;
      } else if FindTodo(todos, lineIdx).Some? {
        var k :| 0 <= k < |todos[1..]| && todos[1..][k] == FindTodo(todos, lineIdx).value &&
            todos[1..][k].lineIdx == lineIdx;
        assert todos[k + 1] == FindTodo(todos, lineIdx).value;
      }
    }
  }

  /** The text fits on its line, and the body lines on theirs, and the body survives re-reading. */
  ghost predicate Clean(indent: string, text: string, body: seq<string>) {
    BreakFree(text) && AllBreakFree(body) && Survives(indent, body)
  }

  lemma BlockBreakFree(indent: string, marker: char, check: char, text: string, body: seq<string>)
    requires BreakFree(indent) && IsMarker(marker) && IsCheck(check) && BreakFree(text) && AllBreakFree(body)
    ensures AllBreakFree([HeadLine(indent, marker, check, text)] + PadAll(indent, body))
  {
    var padded := PadAll(indent, body);
    forall k | 0 <= k < |padded| ensures BreakFree(padded[k]) {
      PadAt(indent, body, k);
    }
  }

  /** PATCH: None when the line is not a todo. */
  function UpdateText(text: string, lineIdx: int, e: Edit): Option<string> {
    var raw := SplitLines(text);
    var lines := Lines(raw);
    match FindTodo(Parse(lines, 0), lineIdx)
    case None => None
    case Some(t) =>
      if t.lineIdx <= t.endIdx < |raw| && lines[t.lineIdx].Checkbox? then
        Some(JoinLines(ReplaceSpan(raw, t.lineIdx, t.endIdx + 1, UpdatedBlock(lines[t.lineIdx].head, t, e))))
      else None
  }

  lemma OpenTodoLine(indent: string, text: string) returns (h: Head, line: string)
    requires AllSpaces(indent) && Trimmed(text) && BreakFree(text)
    ensures Classify(line) == Checkbox(h) && h.indent == indent && BreakFree(line)
    ensures line == indent + "- [ ] " + text
  {
    h := Head(indent, '-', ' ', text);
    line := HeadLine(indent, '-', ' ', text);
    SpaceChars();
    HeadLineIsCheckbox(indent, '-', ' ', text);
    BlockBreakFree(indent, '-', ' ', text, []);
    assert ([line] + PadAll(indent, []))[0] == line;
  }

  /** A todo the parser reports always stands on a checkbox line of the file, within the file. */
  lemma ReportedTodo(lines: seq<Line>, k: nat) returns (h: Head)
    requires k < |Parse(lines, 0)|
    ensures var t := Parse(lines, 0)[k];
      && t.lineIdx <= t.endIdx < |lines| && lines[t.lineIdx] == Checkbox(h)
      && FindTodo(Parse(lines, 0), t.lineIdx) == Some(t)
      && t.indent == |h.indent| && t.done == IsDone(h) && t.text == h.text
  {
    var at, end := Locate(lines, k);
    h := lines[at].head;
    ParseInOrder(lines, 0);
    FindTodoAt(Parse(lines, 0), k);
    assert lines[at..end][0] == lines[at];
  }

  /** The todos after an edit of the k-th: that one replaced, those after it moved. */
  ghost predicate EditedInPlace(todos: seq<Todo>, todos': seq<Todo>, k: nat, after: Todo)
    requires k < |todos|
  {
    var delta := after.endIdx - todos[k].endIdx;
    CanShift(todos[k + 1..], delta) && todos' == todos[..k] + [after] + Shift(todos[k + 1..], delta)
  }

  /** The lines around a replaced block, parsed. */
  lemma ReplacedBlock(a: seq<Line>, x: seq<Line>, rest: seq<Line>, n: nat, end: nat, todos: seq<Todo>, k: nat)
    requires k < |todos| && todos[..k] == Parse(a, 0) && todos[k + 1..] == Parse(rest, end) &&
             todos[k].endIdx + 1 == end
    requires 0 < n <= |x| && x[0].Checkbox? && BlockSize(x) == n && x[n..] == rest
    ensures EditedInPlace(todos, Parse(a + x, 0), k, TodoOf(x[..n], |a|))
  {
    TodoShift(x[..n], |a|, |a|);
    CutAtTodo(a, x);
    ParseShift(rest, end, |a| + n);
  }

  /** The todo a PATCH asks for. */
  function Updated(t: Todo, e: Edit): Todo {
    var body := BodyLines(NewDetails(t, e));
    Todo(t.lineIdx, t.indent, NewDone(t, e), NewText(t, e), JoinFeeds(body), t.lineIdx + |body|)
  }

  /** The checkbox line of the k-th todo. */
  function HeadOf(text: string, k: nat): Option<Head> {
    var lines, todos := Lines(SplitLines(text)), ParseText(text);
    if k < |todos| && todos[k].lineIdx < |lines| && lines[todos[k].lineIdx].Checkbox? then
      Some(lines[todos[k].lineIdx].head)
    else None
  }

  /** With fields free of line boundaries, PATCH goes right or leaves a todo that ends too early. */
  lemma UpdateOutcome(text: string, k: nat, e: Edit) returns (h: Head)
    requires k < |ParseText(text)|
    ensures var t := ParseText(text)[k];
      && HeadOf(text, k) == Some(h) && UpdateText(text, t.lineIdx, e).Some?
      && var todos' := ParseText(UpdateText(text, t.lineIdx, e).value);
      (BreakFree(NewText(t, e)) && AllBreakFree(BodyLines(NewDetails(t, e))) ==>
        if Survives(h.indent, BodyLines(NewDetails(t, e))) then EditedInPlace(ParseText(text), todos', k, Updated(t, e))
        else k < |todos'| && todos'[k].endIdx < Updated(t, e).endIdx)
  {
    var raw := SplitLines(text);
    SplitIsBreakFree(text);
    h := ReportedTodo(Lines(raw), k);
    var t := ParseText(text)[k];
    if BreakFree(NewText(t, e)) && AllBreakFree(BodyLines(NewDetails(t, e))) {
      UpdatedLines(raw, Lines(raw), k, t, h, e);
    }
  }

  /** Main result: after PATCH the parser reports the edited todo and all others unmoved but for a uniform shift,
      exactly when the new fields are clean. */
  lemma UpdateFrame(text: string, k: nat, e: Edit)
    requires k < |ParseText(text)|
    ensures var t := ParseText(text)[k];
      && HeadOf(text, k).Some? && UpdateText(text, t.lineIdx, e).Some?
      && (EditedInPlace(ParseText(text), ParseText(UpdateText(text, t.lineIdx, e).value), k, Updated(t, e)) <==>
          Clean(HeadOf(text, k).value.indent, NewText(t, e), BodyLines(NewDetails(t, e))))
  {
    var h := UpdateOutcome(text, k, e);
    var t := ParseText(text)[k];
    if !(BreakFree(NewText(t, e)) && AllBreakFree(BodyLines(NewDetails(t, e)))) {
      NeverReported(UpdateText(text, t.lineIdx, e).value, k, t, e);
    }
  }

  /** No file parses to a todo whose fields hold a stray line boundary. */
  lemma NeverReported(written: string, k: nat, t: Todo, e: Edit)
    requires !(BreakFree(NewText(t, e)) && AllBreakFree(BodyLines(NewDetails(t, e))))
    ensures k < |ParseText(written)| ==> ParseText(written)[k] != Updated(t, e)
  {
    if k < |ParseText(written)| {
      ParsedClean(written, k);
      BodyLinesIsBody(NewDetails(t, e));
      StrayBreak(BodyLines(NewDetails(t, e)));
    }
  }

  lemma StrayBreak(body: seq<string>)
    requires IsBody(body)
    ensures OnlyFeeds(JoinFeeds(body)) ==> AllBreakFree(body)
  {
    JoinOnlyFeeds(body);
    if OnlyFeeds(JoinFeeds(body)) {
      forall k | 0 <= k < |body| ensures BreakFree(body[k]) {
        assert OnlyFeeds(body[k]);
      }
    }
  }

  /** The parse of the file with the k-th block replaced by a rendered one. */
  lemma RenderedInPlace(lines: seq<Line>, k: nat, at: nat, end: nat, h: Head, details: string,
                        block: seq<string>, body: seq<string>, after: Todo)
    requires k < |Parse(lines, 0)| && at == Parse(lines, 0)[k].lineIdx && end == Parse(lines, 0)[k].endIdx + 1
    requires at < end <= |lines| && lines[at].Checkbox? && lines[at].head.indent == h.indent
    requires IsBlank(h.indent) && IsMarker(h.marker) && IsCheck(h.check) && Trimmed(h.text)
    requires block == BlockLines(h.indent, h.marker, h.check, h.text, details)
    requires body == BodyLines(details) &&
             after == Todo(at, |h.indent|, IsDone(h), h.text, JoinFeeds(body), at + |body|)
    ensures var todos' := Parse(lines[..at] + (Lines(block) + lines[end..]), 0);
      if Survives(h.indent, body) then EditedInPlace(Parse(lines, 0), todos', k, after)
      else k < |todos'| && todos'[k].endIdx < after.endIdx
  {
    var i, j := Locate(lines, k);
    RenderedBlock(h, details, lines[end..], at, block, body);
    var x := Lines(block) + lines[end..];
    if Survives(h.indent, body) {
      BlockInPlace(lines, Parse(lines, 0), k, at, end, x, 1 + |body|);
    } else {
      ShortBlock(lines, Parse(lines, 0), k, at, x);
    }
  }

  /** A block of `n` lines put where the k-th todo stood. */
  lemma BlockInPlace(lines: seq<Line>, todos: seq<Todo>, k: nat, at: nat, end: nat, x: seq<Line>, n: nat)
    requires todos == Parse(lines, 0) && k < |todos| && at == todos[k].lineIdx && end == todos[k].endIdx + 1 <= |lines|
    requires at < end && 0 < n <= |x| && x[0].Checkbox? && BlockSize(x) == n && x[n..] == lines[end..]
    ensures EditedInPlace(todos, Parse(lines[..at] + x, 0), k, TodoOf(x[..n], at))
  {
    var i, j := Locate(lines, k);
    ReplacedBlock(lines[..at], x, lines[end..], n, end, todos, k);
  }

  /** A todo put at line `at` ends with its block. */
  lemma ShortBlock(lines: seq<Line>, todos: seq<Todo>, k: nat, at: nat, x: seq<Line>)
    requires todos == Parse(lines, 0) && k < |todos| && at == todos[k].lineIdx && x != [] && x[0].Checkbox?
    ensures at <= |lines| && k < |Parse(lines[..at] + x, 0)| &&
            Parse(lines[..at] + x, 0)[k].endIdx == at + BlockSize(x) - 1
  {
    var i, j := Locate(lines, k);
    CutAtTodo(lines[..at], x);
    TodoShift(x[..BlockSize(x)], at, at);
  }

  lemma SpanBreakFree(raw: seq<string>, at: nat, end: nat, block: seq<string>)
    requires at <= end <= |raw| && AllBreakFree(raw) && AllBreakFree(block)
    ensures AllBreakFree(ReplaceSpan(raw, at, end, block))
  {
  }

  /** With a block free of stray line boundaries, the written lines are the lines that were meant. */
  lemma WrittenUpdate(raw: seq<string>, at: nat, end: nat, block: seq<string>)
    requires AllBreakFree(raw) && at <= end <= |raw| && AllBreakFree(block)
    ensures ParseText(JoinLines(ReplaceSpan(raw, at, end, block))) ==
            Parse(Lines(raw)[..at] + (Lines(block) + Lines(raw)[end..]), 0)
  {
    SpanBreakFree(raw, at, end, block);
    WrittenLines(ReplaceSpan(raw, at, end, block));
    ReplacedLines(raw, at, end, block);
  }

  function UpdatedHead(h: Head, t: Todo, e: Edit): Head {
    Head(h.indent, h.marker, if NewDone(t, e) then 'x' else ' ', NewText(t, e))
  }

  lemma UpdatedHeadFacts(h: Head, t: Todo, e: Edit)
    requires GoodHead(h) && t.text == h.text && BreakFree(NewText(t, e))
    ensures GoodHead(UpdatedHead(h, t, e))
    ensures AllBreakFree(BodyLines(NewDetails(t, e))) ==> AllBreakFree(UpdatedBlock(h, t, e))
  {
    TextTrimmed(t, e, h);
    if AllBreakFree(BodyLines(NewDetails(t, e))) {
      BlockBreakFree(h.indent, h.marker, UpdatedHead(h, t, e).check, NewText(t, e), BodyLines(NewDetails(t, e)));
    }
  }

  /** Update with fields free of line boundaries: only re-reading the body can go wrong. */
  lemma UpdatedLines(raw: seq<string>, lines: seq<Line>, k: nat, t: Todo, h: Head, e: Edit)
    requires AllBreakFree(raw) && lines == Lines(raw) && k < |Parse(lines, 0)| && t == Parse(lines, 0)[k]
    requires t.lineIdx <= t.endIdx < |raw| && lines[t.lineIdx] == Checkbox(h)
    requires t.indent == |h.indent| && t.text == h.text
    requires BreakFree(NewText(t, e)) && AllBreakFree(BodyLines(NewDetails(t, e)))
    ensures
      var todos' := ParseText(JoinLines(ReplaceSpan(raw, t.lineIdx, t.endIdx + 1, UpdatedBlock(h, t, e))));
      if Survives(h.indent, BodyLines(NewDetails(t, e))) then EditedInPlace(Parse(lines, 0), todos', k, Updated(t, e))
      else k < |todos'| && todos'[k].endIdx < Updated(t, e).endIdx
  {
    HeadFacts(raw, t.lineIdx);
    UpdatedHeadFacts(h, t, e);
    UpdatedIs(h, t, e, UpdatedHead(h, t, e));
    WrittenInPlace(raw, lines, k, t.lineIdx, t.endIdx + 1, UpdatedHead(h, t, e), NewDetails(t, e),
                   UpdatedBlock(h, t, e), BodyLines(NewDetails(t, e)), Updated(t, e));
  }

  lemma UpdatedIs(h: Head, t: Todo, e: Edit, h': Head)
    requires h' == UpdatedHead(h, t, e) && t.indent == |h.indent|
    ensures UpdatedBlock(h, t, e) == BlockLines(h'.indent, h'.marker, h'.check, h'.text, NewDetails(t, e))
    ensures var body := BodyLines(NewDetails(t, e));
      Updated(t, e) == Todo(t.lineIdx, |h'.indent|, IsDone(h'), h'.text, JoinFeeds(body), t.lineIdx + |body|)
  {
  }

  lemma WrittenInPlace(raw: seq<string>, lines: seq<Line>, k: nat, at: nat, end: nat, h: Head, details: string,
                       block: seq<string>, body: seq<string>, after: Todo)
    requires AllBreakFree(raw) && lines == Lines(raw) && k < |Parse(lines, 0)|
    requires at == Parse(lines, 0)[k].lineIdx && end == Parse(lines, 0)[k].endIdx + 1
    requires at < end <= |lines| && lines[at].Checkbox? && lines[at].head.indent == h.indent && GoodHead(h)
    requires block == BlockLines(h.indent, h.marker, h.check, h.text, details) && AllBreakFree(block)
    requires body == BodyLines(details) &&
             after == Todo(at, |h.indent|, IsDone(h), h.text, JoinFeeds(body), at + |body|)
    ensures var todos' := ParseText(JoinLines(ReplaceSpan(raw, at, end, block)));
      if Survives(h.indent, body) then EditedInPlace(Parse(lines, 0), todos', k, after)
      else k < |todos'| && todos'[k].endIdx < after.endIdx
  {
    WrittenUpdate(raw, at, end, block);
    RenderedInPlace(lines, k, at, end, h, details, block, body, after);
  }

  lemma TextTrimmed(t: Todo, e: Edit, h: Head)
    requires t.text == h.text && Trimmed(h.text)
    ensures Trimmed(NewText(t, e))
  {
    if e.text.Some? { StripTrims(e.text.value); }
  }

  lemma ReplacedLines(raw: seq<string>, at: nat, end: nat, block: seq<string>)
    requires at <= end <= |raw|
    ensures Lines(ReplaceSpan(raw, at, end, block)) == Lines(raw)[..at] + (Lines(block) + Lines(raw)[end..])
  {
    LinesConcat(raw[..at] + block, raw[end..]);
    LinesConcat(raw[..at], block);
    LinesSlice(raw, 0, at);
    LinesSlice(raw, end, |raw|);
    assert raw[end..|raw|] == raw[end..];
    Regroup(Lines(raw)[..at], Lines(block), Lines(raw)[end..]);
  }
}
