/** Reordering todos. */
module TodoReorder {
  import opened Optional
  import opened TextLines
  import opened TodoParser
  import opened TodoEdits

  // Reordering: whatever list of line numbers is asked for, the rewritten file holds the same todos, those
  // asked for first.

  // ----- the new order -----

  /** The todos asked for: unknown lines and repetitions are skipped. */
  function Requested(todos: seq<Todo>, order: seq<int>): seq<Todo> {
    if order == [] then []
    else
      var n := |order| - 1;
      var t := FindTodo(todos, order[n]);
      Requested(todos, order[..n]) + (if t.Some? && order[n] !in order[..n] then [t.value] else [])
  }

  /** The todos not asked for, in file order. */
  function Unmentioned(todos: seq<Todo>, order: seq<int>): seq<Todo> {
    if todos == [] then []
    else (if todos[0].lineIdx in order then [] else [todos[0]]) + Unmentioned(todos[1..], order)
  }

  function Ordered(todos: seq<Todo>, order: seq<int>): seq<Todo> {
    Requested(todos, order) + Unmentioned(todos, order)
  }

  predicate DistinctLines(todos: seq<Todo>) {
    forall j, k | 0 <= j < k < |todos| :: todos[j].lineIdx != todos[k].lineIdx
  }

  /** Mentioning a line again, or one that is no todo's, changes nothing. */
  lemma {:induction false} MentionOther(todos: seq<Todo>, order: seq<int>, i: int)
    requires FindTodo(todos, i) == None || i in order
    ensures Unmentioned(todos, order + [i]) == Unmentioned(todos, order)
  {
    if todos != [] {
      MentionOther(todos[1..], order, i);
      assert todos[0].lineIdx in order + [i] <==> todos[0].lineIdx in order || todos[0].lineIdx == i;
    }
  }

  lemma {:induction false} MentionOne(todos: seq<Todo>, order: seq<int>, i: int)
    requires DistinctLines(todos)
    ensures var t := FindTodo(todos, i);
      multiset(Unmentioned(todos, order)) ==
      multiset(Unmentioned(todos, order + [i])) + (if t.Some? && i !in order then multiset{t.value} else multiset{})
  {
    if FindTodo(todos, i) == None || i in order {
      MentionOther(todos, order, i);
    } else {
      DistinctRest(todos);
      if todos[0].lineIdx == i {
        MentionOther(todos[1..], order, i);
        MentionFirst(todos, order);
      } else {
        MentionOne(todos[1..], order, i);
        MentionLater(todos, order, i, FindTodo(todos, i).value);
      }
    }
  }

  lemma MentionFirst(todos: seq<Todo>, order: seq<int>)
    requires todos != [] && todos[0].lineIdx !in order
    requires Unmentioned(todos[1..], order + [todos[0].lineIdx]) == Unmentioned(todos[1..], order)
    ensures multiset(Unmentioned(todos, order)) ==
            multiset(Unmentioned(todos, order + [todos[0].lineIdx])) + multiset{todos[0]}
  {
    UnmentionedFirst(todos, order);
    UnmentionedFirst(todos, order + [todos[0].lineIdx]);
  }

  lemma MentionLater(todos: seq<Todo>, order: seq<int>, i: int, t: Todo)
    requires todos != [] && todos[0].lineIdx != i
    requires multiset(Unmentioned(todos[1..], order)) ==
             multiset(Unmentioned(todos[1..], order + [i])) + multiset{t}
    ensures multiset(Unmentioned(todos, order)) == multiset(Unmentioned(todos, order + [i])) + multiset{t}
  {
    UnmentionedFirst(todos, order);
    UnmentionedFirst(todos, order + [i]);
    assert todos[0].lineIdx in order + [i] <==> todos[0].lineIdx in order;
  }

  lemma DistinctRest(todos: seq<Todo>)
    requires todos != [] && DistinctLines(todos)
    ensures DistinctLines(todos[1..]) && FindTodo(todos[1..], todos[0].lineIdx) == None
  {
    var rest := todos[1..];
    assert forall k :: 0 <= k < |rest| ==> rest[k] == todos[k + 1];
    FindTodoFinds(rest, todos[0].lineIdx);
  }

  lemma UnmentionedFirst(todos: seq<Todo>, order: seq<int>)
    requires todos != []
    ensures multiset(Unmentioned(todos, order)) ==
            (if todos[0].lineIdx in order then multiset{} else multiset{todos[0]}) +
              multiset(Unmentioned(todos[1..], order))
  {
  }

  lemma {:induction false} MentionNone(todos: seq<Todo>)
    ensures Unmentioned(todos, []) == todos
  {
    if todos != [] {
      MentionNone(todos[1..]);
    }
  }

  lemma {:induction false} OrderedIsPermutation(todos: seq<Todo>, order: seq<int>)
    requires DistinctLines(todos)
    ensures multiset(Ordered(todos, order)) == multiset(todos)
  {
    if order == [] {
      MentionNone(todos);
      assert Ordered(todos, []) == todos;
    } else {
      var n := |order| - 1;
      var front, i := order[..n], order[n];
      assert order == front + [i];
      OrderedIsPermutation(todos, front);
      MentionOne(todos, front, i);
      assert multiset(Ordered(todos, front)) == multiset(Requested(todos, front)) + multiset(Unmentioned(todos, front));
      assert multiset(Ordered(todos, order)) == multiset(Requested(todos, order)) + multiset(Unmentioned(todos, order));
    }
  }

  lemma {:induction false} RequestedFrom(todos: seq<Todo>, order: seq<int>)
    ensures forall t :: t in Requested(todos, order) ==> t in todos
  {
    if order != [] {
      var n := |order| - 1;
      RequestedFrom(todos, order[..n]);
      FindTodoFinds(todos, order[n]);
    }
  }

  lemma {:induction false} UnmentionedFrom(todos: seq<Todo>, order: seq<int>)
    ensures forall t :: t in Unmentioned(todos, order) ==> t in todos
  {
    if todos != [] {
      UnmentionedFrom(todos[1..], order);
    }
  }

  /** A list of known lines without repetitions is honoured as it stands. */
  lemma {:induction false} RequestedExactly(todos: seq<Todo>, order: seq<int>)
    requires forall k :: 0 <= k < |order| ==> FindTodo(todos, order[k]).Some?
    requires forall j, k :: 0 <= j < k < |order| ==> order[j] != order[k]
    ensures |Requested(todos, order)| == |order|
    ensures forall k :: 0 <= k < |order| ==> Requested(todos, order)[k].lineIdx == order[k]
  {
    if order != [] {
      var n := |order| - 1;
      RequestedExactly(todos, order[..n]);
      FindTodoFinds(todos, order[n]);
    }
  }

  // ----- blocks put one after another -----

  predicate WithinFile(ts: seq<Todo>, size: nat) {
    forall t | t in ts :: t.lineIdx <= t.endIdx < size
  }

  function Blocks<T>(lines: seq<T>, ts: seq<Todo>): seq<T>
    requires WithinFile(ts, |lines|)
  {
    if ts == [] then [] else
      assert ts[0] in ts;
      lines[ts[0].lineIdx..ts[0].endIdx + 1] + Blocks(lines, ts[1..])
  }

  /** Same todo, possibly somewhere else in the file. */
  predicate SameTodo(a: Todo, b: Todo) {
    a == b.(lineIdx := a.lineIdx, endIdx := a.endIdx) && a.endIdx - a.lineIdx == b.endIdx - b.lineIdx
  }

  ghost predicate SameTodos(a: seq<Todo>, b: seq<Todo>) {
    |a| == |b| && forall k :: 0 <= k < |a| ==> SameTodo(a[k], b[k])
  }

  lemma CheckboxEndsExtent(rest: seq<Line>, col: nat)
    requires rest == [] || rest[0].Checkbox?
    ensures Extent(rest, col) == 0
  {
  }

  predicate WholeBlock(block: seq<Line>) {
    block != [] && block[0].Checkbox? && Extent(block[1..], Column(block[0].head)) == |block| - 1
  }

  lemma WholeBlockSize(block: seq<Line>, rest: seq<Line>)
    requires WholeBlock(block) && (rest == [] || rest[0].Checkbox?)
    ensures (block + rest)[0].Checkbox? && BlockSize(block + rest) == |block|
  {
    var col := Column(block[0].head);
    CheckboxEndsExtent(rest, col);
    ExtentConcat(block[1..], rest, col);
    assert (block + rest)[1..] == block[1..] + rest;
  }

  /** A whole block followed by another block or the end of the file. */
  lemma BlockThenCheckbox(block: seq<Line>, rest: seq<Line>, base: nat)
    requires WholeBlock(block) && (rest == [] || rest[0].Checkbox?)
    ensures Parse(block + rest, base) == [TodoOf(block, base)] + Parse(rest, base + |block|)
  {
    WholeBlockSize(block, rest);
    ParseFirst(block + rest, block, rest, base);
  }

  lemma SameTodosCons(a: Todo, as': seq<Todo>, b: Todo, bs: seq<Todo>)
    requires SameTodo(a, b) && SameTodos(as', bs)
    ensures SameTodos([a] + as', [b] + bs)
  {
  }

  lemma ParseOneMore(block: seq<Line>, rest: seq<Line>, t: Todo, ts: seq<Todo>, base: nat)
    requires WholeBlock(block) && (rest == [] || rest[0].Checkbox?)
    requires SameTodo(TodoOf(block, base), t) && SameTodos(Parse(rest, base + |block|), ts)
    ensures SameTodos(Parse(block + rest, base), [t] + ts)
  {
    BlockThenCheckbox(block, rest, base);
    SameTodosCons(TodoOf(block, base), Parse(rest, base + |block|), t, ts);
  }

  /** The lines of `t` are a whole block with the fields of `t`. */
  predicate Stands(lines: seq<Line>, t: Todo) {
    && t.lineIdx <= t.endIdx < |lines| && WholeBlock(lines[t.lineIdx..t.endIdx + 1])
    && SameTodo(TodoOf(lines[t.lineIdx..t.endIdx + 1], 0), t)
  }

  /** Every reported todo stands. */
  lemma ReportedStands(lines: seq<Line>, t: Todo)
    requires t in Parse(lines, 0)
    ensures Stands(lines, t)
  {
    var k :| 0 <= k < |Parse(lines, 0)| && Parse(lines, 0)[k] == t;
    var at, end := Locate(lines, k);
    BlockStands(lines, at, end, t);
  }

  lemma BlockStands(lines: seq<Line>, at: nat, end: nat, t: Todo)
    requires at < end <= |lines| && lines[at].Checkbox? && t == TodoOf(lines[at..end], at)
    requires Extent(lines[at..end][1..], Column(lines[at].head)) == end - at - 1
    ensures Stands(lines, t)
  {
    var block := lines[at..end];
    assert block[0] == lines[at];
    TodoShift(block, at, 0);
  }

  ghost predicate AllStand(lines: seq<Line>, ts: seq<Todo>) {
    forall k :: 0 <= k < |ts| ==> Stands(lines, ts[k])
  }

  lemma StandsAnywhere(lines: seq<Line>, t: Todo, base: nat) returns (block: seq<Line>)
    requires Stands(lines, t)
    ensures block == lines[t.lineIdx..t.endIdx + 1] && WholeBlock(block) && SameTodo(TodoOf(block, base), t)
  {
    block := lines[t.lineIdx..t.endIdx + 1];
    TodoShift(block, 0, base);
  }

  lemma BlocksStart(lines: seq<Line>, ts: seq<Todo>)
    requires WithinFile(ts, |lines|) && AllStand(lines, ts)
    ensures Blocks(lines, ts) == [] || Blocks(lines, ts)[0].Checkbox?
  {
    if ts != [] {
      assert Stands(lines, ts[0]);
    }
  }

  lemma LaterBlocks(lines: seq<Line>, ts: seq<Todo>, block: seq<Line>)
    requires ts != [] && WithinFile(ts, |lines|) && AllStand(lines, ts)
    requires ts[0].lineIdx <= ts[0].endIdx < |lines| && block == lines[ts[0].lineIdx..ts[0].endIdx + 1]
    ensures WithinFile(ts[1..], |lines|) && AllStand(lines, ts[1..])
    ensures Blocks(lines, ts) == block + Blocks(lines, ts[1..])
  {
  }

  lemma {:induction false} ParseBlocks(lines: seq<Line>, ts: seq<Todo>, base: nat)
    requires WithinFile(ts, |lines|) && AllStand(lines, ts)
    ensures SameTodos(Parse(Blocks(lines, ts), base), ts)
  {
    if ts != [] {
      var later := ts[1..];
      var block := FirstBlock(lines, ts, base);
      ParseBlocks(lines, later, base + |block|);
      ParseOneMore(block, Blocks(lines, later), ts[0], later, base);
      assert ts == [ts[0]] + later;
    }
  }

  /** The first block, wherever it is parsed, and the blocks that follow it. */
  lemma FirstBlock(lines: seq<Line>, ts: seq<Todo>, base: nat) returns (block: seq<Line>)
    requires ts != [] && WithinFile(ts, |lines|) && AllStand(lines, ts)
    ensures WithinFile(ts[1..], |lines|) && AllStand(lines, ts[1..])
    ensures WholeBlock(block) && SameTodo(TodoOf(block, base), ts[0])
    ensures Blocks(lines, ts) == block + Blocks(lines, ts[1..])
    ensures Blocks(lines, ts[1..]) == [] || Blocks(lines, ts[1..])[0].Checkbox?
  {
    assert Stands(lines, ts[0]);
    block := StandsAnywhere(lines, ts[0], base);
    LaterBlocks(lines, ts, block);
    BlocksStart(lines, ts[1..]);
  }

  lemma BlocksFirst<T>(lines: seq<T>, ts: seq<Todo>)
    requires ts != [] && WithinFile(ts, |lines|)
    ensures WithinFile(ts[1..], |lines|) && ts[0].lineIdx <= ts[0].endIdx < |lines|
    ensures Blocks(lines, ts) == lines[ts[0].lineIdx..ts[0].endIdx + 1] + Blocks(lines, ts[1..])
  {
    assert ts[0] in ts;
  }

  lemma {:induction false} LinesOfBlocks(raw: seq<string>, ts: seq<Todo>)
    requires WithinFile(ts, |raw|)
    ensures Lines(Blocks(raw, ts)) == Blocks(Lines(raw), ts)
    ensures AllBreakFree(raw) ==> AllBreakFree(Blocks(raw, ts))
  {
    if ts == [] {
      assert Lines([]) == [];
    } else {
      BlocksFirst(raw, ts);
      BlocksFirst(Lines(raw), ts);
      LinesOfBlocks(raw, ts[1..]);
      LinesOfBlock(raw, ts[0].lineIdx, ts[0].endIdx + 1, Blocks(raw, ts[1..]));
    }
  }

  lemma LinesOfBlock(raw: seq<string>, at: nat, end: nat, rest: seq<string>)
    requires at <= end <= |raw|
    ensures Lines(raw[at..end] + rest) == Lines(raw)[at..end] + Lines(rest)
    ensures AllBreakFree(raw) && AllBreakFree(rest) ==> AllBreakFree(raw[at..end] + rest)
  {
    LinesSlice(raw, at, end);
    LinesConcat(raw[at..end], rest);
  }

  // ----- main result -----

  lemma OrderedReported(lines: seq<Line>, order: seq<int>)
    ensures DistinctLines(Parse(lines, 0))
    ensures forall t :: t in Ordered(Parse(lines, 0), order) ==> t in Parse(lines, 0)
    ensures WithinFile(Ordered(Parse(lines, 0), order), |lines|)
  {
    var todos := Parse(lines, 0);
    ParseInOrder(lines, 0);
    RequestedFrom(todos, order);
    UnmentionedFrom(todos, order);
    forall j, k | 0 <= j < k < |todos| ensures todos[j].lineIdx != todos[k].lineIdx {
      assert todos[j].endIdx < todos[k].lineIdx;
    }
  }

  /** The file written: everything before the first todo, then the blocks. */
  function ReorderText(text: string, order: seq<int>): string {
    var raw := SplitLines(text);
    var todos := ParseText(text);
    if todos == [] then text
    else
      OrderedReported(Lines(raw), order);
      ParseInOrder(Lines(raw), 0);
      JoinLines(raw[..todos[0].lineIdx] + Blocks(raw, Ordered(todos, order)))
  }

  /** Main result: after a reorder the parser reports the same todos, content intact, in the new order. */
  lemma ReorderFrame(text: string, order: seq<int>)
    ensures SameTodos(ParseText(ReorderText(text, order)), Ordered(ParseText(text), order))
    ensures multiset(Ordered(ParseText(text), order)) == multiset(ParseText(text))
  {
    var raw := SplitLines(text);
    var todos := ParseText(text);
    OrderedReported(Lines(raw), order);
    OrderedIsPermutation(todos, order);
    if todos == [] {
      assert Ordered(todos, order) == [] by { assert |multiset(Ordered(todos, order))| == 0; }
    } else {
      ReorderedLines(text, raw, todos, order);
    }
  }

  lemma ReorderedLines(text: string, raw: seq<string>, todos: seq<Todo>, order: seq<int>)
    requires raw == SplitLines(text) && todos == Parse(Lines(raw), 0) && todos != []
    ensures SameTodos(ParseText(ReorderText(text, order)), Ordered(todos, order))
  {
    OrderedReported(Lines(raw), order);
    OrderedIsPermutation(todos, order);
    SplitIsBreakFree(text);
    var ts := Ordered(todos, order);
    assert |multiset(ts)| == |multiset(todos)|;
    var at, end := Locate(Lines(raw), 0);
    var pre := raw[..at];
    LinesOfBlocks(raw, ts);
    assert AllBreakFree(pre + Blocks(raw, ts));
    WrittenLines(pre + Blocks(raw, ts));
    LinesConcat(pre, Blocks(raw, ts));
    LinesSlice(raw, 0, at);
    forall k | 0 <= k < |ts| ensures Stands(Lines(raw), ts[k]) {
      ReportedStands(Lines(raw), ts[k]);
    }
    PreambleThenBlocks(Lines(raw), at, ts);
  }

  lemma NothingBefore(preamble: seq<Line>, blocks: seq<Line>)
    requires Parse(preamble, 0) == [] && (blocks == [] || blocks[0].Checkbox?)
    ensures Parse(preamble + blocks, 0) == Parse(blocks, |preamble|)
  {
    if OpenColumn(preamble).Some? {
      CheckboxEndsExtent(blocks, OpenColumn(preamble).value);
    }
    ParseConcat(preamble, blocks, 0);
  }

  lemma PreambleThenBlocks(lines: seq<Line>, at: nat, ts: seq<Todo>)
    requires at <= |lines| && Parse(lines[..at], 0) == [] && ts != []
    requires WithinFile(ts, |lines|) && AllStand(lines, ts)
    ensures SameTodos(Parse(lines[..at] + Blocks(lines, ts), 0), ts)
  {
    ParseBlocks(lines, ts, at);
    BlocksStart(lines, ts);
    NothingBefore(lines[..at], Blocks(lines, ts));
  }
}
