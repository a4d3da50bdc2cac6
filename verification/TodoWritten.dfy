/** What the routes write. */
module TodoWritten {
  import opened Optional
  import opened Sequences
  import opened TextLines
  import opened TodoParser
  import opened TodoRender
  import opened TodoEdits
  import opened TodoDetails
  import opened TodoMoves
  import opened TodoReorder
  import opened TodoReported
  import opened TodoBody

  // What each route makes of the file and of the todos the parser reports, told from what the caller gave and from the
  // lines that were there.

  // ----- trimming at both ends -----

  lemma TrimIsStrip(s: string, whole: string)
    ensures TrimOf(s, whole) <==> s == Strip(whole)
  {
    SkipSpaceStops(whole, 0);
    var n := SkipSpace(whole, 0);
    assert whole == whole[..n] + whole[n..];
    StrippedTail(whole, whole[..n], whole[n..]);
    if TrimOf(s, whole) {
      var a, b :| whole == a + s + b && IsBlank(a) && IsBlank(b);
      OneTrim(s, whole, a, b);
    }
  }

  lemma OneTrim(s: string, whole: string, a: string, b: string)
    requires whole == a + s + b && IsBlank(a) && IsBlank(b)
    requires s == "" || (!IsSpace(s[0]) && !IsSpace(s[|s| - 1]))
    ensures s == Strip(whole)
  {
    if s == "" {
      BlankConcat(a, b);
      assert whole == a + b;
      StripTrims(whole);
    } else {
      var n := |a|;
      assert whole[n] == s[0] && forall k :: 0 <= k < n ==> whole[k] == a[k];
      SkipSpaceIs(whole, 0, n);
      assert whole[n..] == s + b;
      RStripOnly(s, b);
    }
  }

  // ----- a block -----

  /** The lines of a body, each under six spaces more than the todo. */
  predicate Padded(body: seq<string>, indent: string, lines: seq<string>) {
    |lines| == |body| &&
    forall j | 0 <= j < |body| :: lines[j] == if body[j] == "" then "" else indent + "      " + body[j]
  }

  lemma PaddedIs(body: seq<string>, indent: string)
    ensures Padded(body, indent, PadAll(indent, body))
  {
    assert Spaces(6) == "      ";
    forall j | 0 <= j < |body|
      ensures PadAll(indent, body)[j] == if body[j] == "" then "" else indent + "      " + body[j]
    {
      PadAt(indent, body, j);
    }
  }

  function BoxLine(indent: string, marker: char, done: bool, text: string): string {
    indent + [marker] + (if done then " [x] " else " [ ] ") + text
  }

  lemma BoxLineIs(indent: string, marker: char, done: bool, text: string)
    ensures HeadLine(indent, marker, if done then 'x' else ' ', text) == BoxLine(indent, marker, done, text)
  {
    var check := if done then 'x' else ' ';
    assert " [" + [check] + "] " == if done then " [x] " else " [ ] ";
    assert HeadLine(indent, marker, check, text) == indent + [marker] + (" [" + [check] + "] ") + text;
  }

  /** Nothing in the block ends a line or starts a todo, and a body stands under spaces. */
  ghost predicate StandsAlone(indent: string, text: string, body: seq<string>) {
    && BreakFree(text) && AllBreakFree(body)
    && (body == [] ||
        ((forall k :: 0 <= k < |indent| ==> indent[k] == ' ') && forall j :: 0 <= j < |body| ==> !IsBox(body[j])))
  }

  lemma StandsIsClean(indent: string, text: string, body: seq<string>)
    ensures StandsAlone(indent, text, body) <==> Clean(indent, text, body)
  {
    forall j | 0 <= j < |body| ensures IsBox(body[j]) <==> IsTodo(body[j]) { BoxIsTodo(body[j]); }
  }

  // ----- PATCH -----

  /** The text and the details' lines that the edit asks for: what it gives, trimmed, or else what was there. */
  ghost predicate Asked(t: Todo, e: Edit, text: string, body: seq<string>) {
    && (if e.text.Some? then TrimOf(text, e.text.value) else text == t.text)
    && IsBodyOf(body, if e.details.Some? then e.details.value else t.details)
  }

  /** One todo is replaced by `after`; those behind it move by what it grew. */
  predicate OneReplaced(todos: seq<Todo>, todos': seq<Todo>, k: nat, after: Todo)
    requires k < |todos|
  {
    && |todos'| == |todos| && todos'[k] == after
    && (forall j | 0 <= j < k :: todos'[j] == todos[j])
    && forall j | k < j < |todos| :: MovedBy(todos[j], todos'[j], after.endIdx - todos[k].endIdx)
  }

  predicate MovedBy(t: Todo, t': Todo, delta: int) {
    && t'.lineIdx == t.lineIdx + delta && t'.endIdx == t.endIdx + delta
    && t'.indent == t.indent && t'.done == t.done && t'.text == t.text && t'.details == t.details
  }

  lemma ReplacedIs(todos: seq<Todo>, todos': seq<Todo>, k: nat, after: Todo)
    requires k < |todos|
    ensures EditedInPlace(todos, todos', k, after) <==> OneReplaced(todos, todos', k, after)
  {
    if OneReplaced(todos, todos', k, after) { ReplacedEdits(todos, todos', k, after); }
    if EditedInPlace(todos, todos', k, after) { EditReplaces(todos, todos', k, after); }
  }

  lemma ReplacedEdits(todos: seq<Todo>, todos': seq<Todo>, k: nat, after: Todo)
    requires k < |todos| && OneReplaced(todos, todos', k, after)
    ensures EditedInPlace(todos, todos', k, after)
  {
    MovedShift(todos, todos', k, after.endIdx - todos[k].endIdx);
    Whole(todos', k);
    assert todos'[..k] == todos[..k];
  }

  lemma EditReplaces(todos: seq<Todo>, todos': seq<Todo>, k: nat, after: Todo)
    requires k < |todos| && EditedInPlace(todos, todos', k, after)
    ensures OneReplaced(todos, todos', k, after)
  {
    var d := after.endIdx - todos[k].endIdx;
    Middle(todos[..k], after, Shift(todos[k + 1..], d));
    ShiftMoved(todos, todos', k, d);
    forall j | 0 <= j < k ensures todos'[j] == todos[j] { assert todos'[j] == todos'[..k][j]; }
  }

  lemma MovedShift(todos: seq<Todo>, todos': seq<Todo>, k: nat, d: int)
    requires k < |todos| == |todos'| && forall j :: k < j < |todos| ==> MovedBy(todos[j], todos'[j], d)
    ensures CanShift(todos[k + 1..], d) && todos'[k + 1..] == Shift(todos[k + 1..], d)
  {
    var later, later' := todos[k + 1..], todos'[k + 1..];
    forall j | 0 <= j < |later| ensures MovedBy(later[j], later'[j], d) {
      assert MovedBy(todos[k + 1 + j], todos'[k + 1 + j], d);
    }
  }

  lemma ShiftMoved(todos: seq<Todo>, todos': seq<Todo>, k: nat, d: int)
    requires k < |todos| && |todos'| > k && CanShift(todos[k + 1..], d) && todos'[k + 1..] == Shift(todos[k + 1..], d)
    ensures |todos'| == |todos| && forall j :: k < j < |todos| ==> MovedBy(todos[j], todos'[j], d)
  {
    var later, later' := todos[k + 1..], todos'[k + 1..];
    forall j | k < j < |todos| ensures MovedBy(todos[j], todos'[j], d) {
      assert later'[j - k - 1] == ShiftTodo(later[j - k - 1], d);
    }
  }

  function Edited(t: Todo, e: Edit, text: string, body: seq<string>): Todo {
    Todo(t.lineIdx, t.indent, if e.done.Some? then e.done.value else t.done, text, JoinFeeds(body), t.lineIdx + |body|)
  }

  lemma AskedIs(t: Todo, e: Edit, text: string, body: seq<string>)
    requires Asked(t, e, text, body)
    ensures text == NewText(t, e) && body == BodyLines(NewDetails(t, e)) && Edited(t, e, text, body) == Updated(t, e)
  {
    BodyExactly(body, NewDetails(t, e));
    if e.text.Some? { TrimIsStrip(text, e.text.value); }
  }

  /** Main result: PATCH leaves the todo with the box, text and details asked for, and moves those behind it, exactly
      when the block it writes stands alone. */
  lemma PatchSays(text: string, k: nat, e: Edit, p: Parts, title: string, body: seq<string>)
    requires k < |ParseText(text)| && Asked(ParseText(text)[k], e, title, body)
    requires ParseText(text)[k].lineIdx < |SplitLines(text)|
    requires AreParts(SplitLines(text)[ParseText(text)[k].lineIdx], p)
    ensures UpdateText(text, ParseText(text)[k].lineIdx, e).Some?
    ensures var t := ParseText(text)[k];
      var todos' := ParseText(UpdateText(text, t.lineIdx, e).value);
      OneReplaced(ParseText(text), todos', k, Edited(t, e, title, body)) <==> StandsAlone(p.indent, title, body)
  {
    var t := ParseText(text)[k];
    AskedIs(t, e, title, body);
    UpdateFrame(text, k, e);
    HeadHasParts(text, k, p);
    ReplacedIs(ParseText(text), ParseText(UpdateText(text, t.lineIdx, e).value), k, Updated(t, e));
    StandsIsClean(p.indent, title, body);
  }

  lemma HeadHasParts(text: string, k: nat, p: Parts)
    requires k < |ParseText(text)| && HeadOf(text, k).Some?
    requires ParseText(text)[k].lineIdx < |SplitLines(text)|
    requires AreParts(SplitLines(text)[ParseText(text)[k].lineIdx], p)
    ensures HeadOf(text, k).value.indent == p.indent && HeadOf(text, k).value.marker == p.marker
  {
    var raw, at := SplitLines(text), ParseText(text)[k].lineIdx;
    LineAt(raw, at);
    PartsMatch(raw[at], p);
  }

  /** The lines of the file after the edit: `line` and `padded` where the todo's were, and all others as they were. */
  ghost predicate IsRewritten(text: string, t: Todo, e: Edit, line: string, padded: seq<string>) {
    var raw := SplitLines(text);
    && t.lineIdx <= t.endIdx < |raw| && UpdateText(text, t.lineIdx, e).Some?
    && SplitLines(UpdateText(text, t.lineIdx, e).value) ==
       raw[..t.lineIdx] + [line] + padded + raw[t.endIdx + 1..]
  }

  /** And it writes the todo's lines anew and leaves all others as they were. */
  lemma PatchWrites(text: string, k: nat, e: Edit, p: Parts, title: string, body: seq<string>)
    returns (padded: seq<string>)
    requires k < |ParseText(text)| && Asked(ParseText(text)[k], e, title, body)
    requires BreakFree(title) && AllBreakFree(body)
    requires ParseText(text)[k].lineIdx < |SplitLines(text)|
    requires AreParts(SplitLines(text)[ParseText(text)[k].lineIdx], p)
    ensures Padded(body, p.indent, padded)
    ensures var t := ParseText(text)[k];
      IsRewritten(text, t, e, BoxLine(p.indent, p.marker, if e.done.Some? then e.done.value else t.done, title), padded)
  {
    padded := PadAll(p.indent, body);
    PaddedIs(body, p.indent);
    AskedIs(ParseText(text)[k], e, title, body);
    var h := HeadFor(text, k, p);
    HeadRewritten(text, ParseText(text)[k], e, h, title, body);
  }

  lemma HeadFor(text: string, k: nat, p: Parts) returns (h: Head)
    requires k < |ParseText(text)| && ParseText(text)[k].lineIdx < |SplitLines(text)|
    requires AreParts(SplitLines(text)[ParseText(text)[k].lineIdx], p)
    ensures h.indent == p.indent && h.marker == p.marker
    ensures var t := ParseText(text)[k];
      && FindTodo(ParseText(text), t.lineIdx) == Some(t) && t.lineIdx <= t.endIdx < |SplitLines(text)|
      && Lines(SplitLines(text))[t.lineIdx] == Checkbox(h)
  {
    h := ReportedTodo(Lines(SplitLines(text)), k);
    LineAt(SplitLines(text), ParseText(text)[k].lineIdx);
    PartsMatch(SplitLines(text)[ParseText(text)[k].lineIdx], p);
  }

  lemma HeadRewritten(text: string, t: Todo, e: Edit, h: Head, title: string, body: seq<string>)
    requires FindTodo(ParseText(text), t.lineIdx) == Some(t) && t.lineIdx <= t.endIdx < |SplitLines(text)|
    requires Lines(SplitLines(text))[t.lineIdx] == Checkbox(h)
    requires title == NewText(t, e) && body == BodyLines(NewDetails(t, e)) && BreakFree(title) && AllBreakFree(body)
    ensures IsRewritten(text, t, e, BoxLine(h.indent, h.marker, NewDone(t, e), title), PadAll(h.indent, body))
  {
    SplitIsBreakFree(text);
    HeadFacts(SplitLines(text), t.lineIdx);
    UpdateTextIs(text, t, e, h);
    SpanWritten(SplitLines(text), t.lineIdx, t.endIdx + 1, h, NewDone(t, e), title, NewDetails(t, e));
  }

  lemma UpdateTextIs(text: string, t: Todo, e: Edit, h: Head)
    requires FindTodo(ParseText(text), t.lineIdx) == Some(t) && t.lineIdx <= t.endIdx < |SplitLines(text)|
    requires Lines(SplitLines(text))[t.lineIdx] == Checkbox(h)
    ensures UpdateText(text, t.lineIdx, e) ==
            Some(JoinLines(ReplaceSpan(SplitLines(text), t.lineIdx, t.endIdx + 1, UpdatedBlock(h, t, e))))
  {
  }

  lemma SpanWritten(raw: seq<string>, at: nat, end: nat, h: Head, done: bool, title: string, details: string)
    requires at < end <= |raw| && AllBreakFree(raw) && GoodHead(h) && BreakFree(title)
    requires AllBreakFree(BodyLines(details))
    ensures var block := BlockLines(h.indent, h.marker, if done then 'x' else ' ', title, details);
      SplitLines(JoinLines(ReplaceSpan(raw, at, end, block))) ==
      raw[..at] + [BoxLine(h.indent, h.marker, done, title)] + PadAll(h.indent, BodyLines(details)) + raw[end..]
  {
    var check := if done then 'x' else ' ';
    var block := BlockLines(h.indent, h.marker, check, title, details);
    BlockBreakFree(h.indent, h.marker, check, title, BodyLines(details));
    SpanBreakFree(raw, at, end, block);
    SplitJoin(ReplaceSpan(raw, at, end, block));
    BoxLineIs(h.indent, h.marker, done, title);
    Regroup(raw[..at], [block[0]], PadAll(h.indent, BodyLines(details)));
  }

  /** PATCH and DELETE find no todo exactly when none is reported on the line. */
  lemma FoundExactly(text: string, lineIdx: int, e: Edit)
    ensures UpdateText(text, lineIdx, e).Some? <==> ReportedOn(ParseText(text), lineIdx)
    ensures DeleteText(text, lineIdx).Some? <==> ReportedOn(ParseText(text), lineIdx)
  {
    FindTodoFinds(ParseText(text), lineIdx);
    if ReportedOn(ParseText(text), lineIdx) {
      var k :| 0 <= k < |ParseText(text)| && ParseText(text)[k].lineIdx == lineIdx;
      var h := UpdateOutcome(text, k, e);
      var at, end := DeletedText(text, k);
    }
  }

  ghost predicate ReportedOn(todos: seq<Todo>, lineIdx: int) {
    exists k :: 0 <= k < |todos| && todos[k].lineIdx == lineIdx
  }

  // ----- POST -----

  function Ended(text: string): string {
    if text != "" && text[|text| - 1] == '\n' then text else text + "\n"
  }

  /** Main result: POST appends the todo asked for, unticked, behind the last line, exactly when its block stands
      alone. */
  lemma AddSays(existing: string, given: string, details: string, title: string, body: seq<string>, t: Todo)
    requires TrimOf(title, given) && IsBodyOf(body, details)
    requires t.lineIdx == |SplitLines(Ended(existing))| && t.endIdx == t.lineIdx + |body| && t.indent == 0
    requires !t.done && t.text == title && t.details == JoinFeeds(body)
    ensures title == Strip(given)
    ensures ParseText(AddText(existing, title, details)) == ParseText(existing) + [t] <==> StandsAlone("", title, body)
  {
    TrimmedTitle(title, given);
    BodyExactly(body, details);
    AddedOnly(existing, title, details, body, t);
  }

  lemma TrimmedTitle(title: string, given: string)
    requires TrimOf(title, given)
    ensures title == Strip(given) && Trimmed(title)
  {
    TrimIsStrip(title, given);
    StripTrims(given);
  }

  lemma AddedOnly(existing: string, title: string, details: string, body: seq<string>, t: Todo)
    requires Trimmed(title) && body == BodyLines(details)
    requires t.lineIdx == |SplitLines(Ended(existing))| && t.endIdx == t.lineIdx + |body| && t.indent == 0
    requires !t.done && t.text == title && t.details == JoinFeeds(body)
    ensures ParseText(AddText(existing, title, details)) == ParseText(existing) + [t] <==> StandsAlone("", title, body)
  {
    AddedIs(existing, title, details);
    StandsIsClean("", title, body);
    assert t == Added(existing, title, details);
    AddFrame(existing, title, details);
  }

  lemma AddedIs(existing: string, title: string, details: string)
    ensures var (at, body) := (|SplitLines(Ended(existing))|, BodyLines(details));
      Added(existing, title, details) == Todo(at, 0, false, title, JoinFeeds(body), at + |body|)
    ensures Ended(existing) == Terminated(existing)
  {
  }

  lemma AddWrites(existing: string, details: string, title: string, body: seq<string>) returns (padded: seq<string>)
    requires IsBodyOf(body, details) && BreakFree(title) && AllBreakFree(body)
    ensures Padded(body, "", padded)
    ensures SplitLines(AddText(existing, title, details)) ==
            SplitLines(Ended(existing)) + ["- [ ] " + title] + padded
  {
    BodyExactly(body, details);
    padded := PadAll("", body);
    PaddedIs(body, "");
    BlockBreakFree("", '-', ' ', title, body);
    NewBlockIs(title, details);
    AppendedLines(Terminated(existing), NewTodoBlock(title, details));
    AddedIs(existing, title, details);
    Regroup(SplitLines(Ended(existing)), ["- [ ] " + title], padded);
  }

  lemma NewBlockIs(title: string, details: string)
    ensures NewTodoBlock(title, details) == ["- [ ] " + title] + PadAll("", BodyLines(details))
  {
    BoxLineIs("", '-', false, title);
    assert "" + ['-'] + " [ ] " + title == "- [ ] " + title;
  }

  lemma AppendedLines(existing: string, block: seq<string>)
    requires EndsLine(existing) && AllBreakFree(block)
    ensures SplitLines(existing + JoinLines(block)) == SplitLines(existing) + block
  {
    SplitConcat(existing, JoinLines(block));
    SplitJoin(block);
  }

  // ----- DELETE -----

  /** DELETE takes out the lines of the todo and no others. */
  lemma DeleteWrites(text: string, k: nat)
    requires k < |ParseText(text)|
    ensures var (raw, t) := (SplitLines(text), ParseText(text)[k]);
      && t.lineIdx <= t.endIdx < |raw| && DeleteText(text, t.lineIdx).Some?
      && SplitLines(DeleteText(text, t.lineIdx).value) == raw[..t.lineIdx] + raw[t.endIdx + 1..]
  {
    var raw := SplitLines(text);
    var at, end := DeletedText(text, k);
    SplitIsBreakFree(text);
    SplitJoin(DeleteSpan(raw, at, end));
  }

  // ----- reorder -----

  /** Asked for earlier than `y`; or neither is asked for, and it stands earlier in the file. */
  ghost predicate GoesBefore(order: seq<int>, x: Todo, y: Todo) {
    || (exists i :: 0 <= i < |order| && order[i] == x.lineIdx && y.lineIdx !in order[..i + 1])
    || (x.lineIdx !in order && y.lineIdx !in order && x.lineIdx < y.lineIdx)
  }

  lemma {:induction false} RequestedAsked(todos: seq<Todo>, order: seq<int>, a: nat)
    requires a < |Requested(todos, order)|
    ensures Requested(todos, order)[a].lineIdx in order
  {
    var n := |order| - 1;
    if a < |Requested(todos, order[..n])| {
      RequestedAsked(todos, order[..n], a);
    } else {
      FindTodoFinds(todos, order[n]);
    }
  }

  lemma {:induction false} RequestedRule(todos: seq<Todo>, order: seq<int>, a: nat, b: nat)
    requires a < b < |Requested(todos, order)|
    ensures GoesBefore(order, Requested(todos, order)[a], Requested(todos, order)[b])
  {
    var n := |order| - 1;
    var front := order[..n];
    if b < |Requested(todos, front)| {
      RequestedRule(todos, front, a, b);
      RequestedAsked(todos, front, a);
      StillBefore(order, n, Requested(todos, order)[a], Requested(todos, order)[b]);
    } else {
      RequestedAsked(todos, front, a);
      FindTodoFinds(todos, order[n]);
      AskedLast(order, n, Requested(todos, order)[a], Requested(todos, order)[b]);
    }
  }

  lemma StillBefore(order: seq<int>, n: nat, x: Todo, y: Todo)
    requires n <= |order| && x.lineIdx in order[..n] && GoesBefore(order[..n], x, y)
    ensures GoesBefore(order, x, y)
  {
    var i :| 0 <= i < n && order[..n][i] == x.lineIdx && y.lineIdx !in order[..n][..i + 1];
    assert order[..n][..i + 1] == order[..i + 1];
  }

  lemma AskedLast(order: seq<int>, n: nat, x: Todo, y: Todo)
    requires n < |order| && x.lineIdx in order[..n] && y.lineIdx !in order[..n]
    ensures GoesBefore(order, x, y)
  {
    var i :| 0 <= i < n && order[..n][i] == x.lineIdx;
    assert forall z :: z in order[..i + 1] ==> z in order[..n];
  }

  lemma {:induction false} UnmentionedOut(todos: seq<Todo>, order: seq<int>, a: nat)
    requires a < |Unmentioned(todos, order)|
    ensures Unmentioned(todos, order)[a].lineIdx !in order && Unmentioned(todos, order)[a] in todos
  {
    var first := if todos[0].lineIdx in order then 0 else 1;
    if a >= first {
      UnmentionedOut(todos[1..], order, a - first);
    }
  }

  lemma {:induction false} UnmentionedRises(todos: seq<Todo>, order: seq<int>, a: nat, b: nat)
    requires Rising(todos) && a < b < |Unmentioned(todos, order)|
    ensures Unmentioned(todos, order)[a].lineIdx < Unmentioned(todos, order)[b].lineIdx
  {
    var rest, first := todos[1..], if todos[0].lineIdx in order then 0 else 1;
    assert Rising(rest);
    if a >= first {
      UnmentionedRises(rest, order, a - first, b - first);
    } else {
      UnmentionedOut(rest, order, b - first);
      FirstIsLeast(todos, Unmentioned(rest, order)[b - first]);
    }
  }

  predicate Rising(todos: seq<Todo>) {
    forall j, k | 0 <= j < k < |todos| :: todos[j].lineIdx < todos[k].lineIdx
  }

  lemma FirstIsLeast(todos: seq<Todo>, t: Todo)
    requires Rising(todos) && todos != [] && t in todos[1..]
    ensures todos[0].lineIdx < t.lineIdx
  {
  }

  /** Main result: those asked for come first, in the order of their first mention; the others follow in file order. */
  lemma OrderedRule(todos: seq<Todo>, order: seq<int>, a: nat, b: nat)
    requires Rising(todos) && a < b < |Ordered(todos, order)|
    ensures GoesBefore(order, Ordered(todos, order)[a], Ordered(todos, order)[b])
  {
    var n := |Requested(todos, order)|;
    if b < n {
      RequestedRule(todos, order, a, b);
    } else if a < n {
      RequestedAsked(todos, order, a);
      UnmentionedOut(todos, order, b - n);
      AskedFirst(order, Ordered(todos, order)[a], Ordered(todos, order)[b]);
    } else {
      UnmentionedOut(todos, order, a - n);
      UnmentionedOut(todos, order, b - n);
      UnmentionedRises(todos, order, a - n, b - n);
    }
  }

  lemma AskedFirst(order: seq<int>, x: Todo, y: Todo)
    requires x.lineIdx in order && y.lineIdx !in order
    ensures GoesBefore(order, x, y)
  {
    var i :| 0 <= i < |order| && order[i] == x.lineIdx;
    assert forall z :: z in order[..i + 1] ==> z in order;
  }

  /** The reorder route writes the lines before the first todo, then the lines of each todo, all as they were. */
  lemma ReorderWrites(text: string, order: seq<int>)
    requires ParseText(text) != []
    ensures var (raw, todos) := (SplitLines(text), ParseText(text));
      && todos[0].lineIdx < |raw| && WithinFile(Ordered(todos, order), |raw|)
      && SplitLines(ReorderText(text, order)) == raw[..todos[0].lineIdx] + Blocks(raw, Ordered(todos, order))
  {
    var raw, todos := SplitLines(text), ParseText(text);
    OrderedReported(Lines(raw), order);
    ParseInOrder(Lines(raw), 0);
    SplitIsBreakFree(text);
    LinesOfBlocks(raw, Ordered(todos, order));
    SplitJoin(raw[..todos[0].lineIdx] + Blocks(raw, Ordered(todos, order)));
  }
}
