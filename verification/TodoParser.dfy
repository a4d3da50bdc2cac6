/** The TODO.md parser. */
module TodoParser {
  import opened Optional
  import opened Sequences
  import opened TextLines

  // The TODO.md parser.  `Parse` gives the todos of a list of lines; `ParseTodos` is the program's nested
  // scan over indices, proved to return exactly that.

  const DETAIL_INDENT := 6

  /** The four groups of the checkbox pattern. */
  datatype Head = Head(indent: string, marker: char, check: char, text: string)

  datatype Todo = Todo(lineIdx: nat, indent: nat, done: bool, text: string, details: string, endIdx: nat)

  predicate IsMarker(c: char) {
    c == '-' || c == '*' || c == '+'
  }

  predicate IsCheck(c: char) {
    c == ' ' || c == 'x' || c == 'X'
  }

  /** From `i` on: a marker, white space, a box. */
  predicate HasBox(line: string, i: nat)
    requires i <= |line|
  {
    i < |line| && IsMarker(line[i]) &&
    var j := SkipSpace(line, i + 1);
    j + 2 < |line| && line[j] == '[' && IsCheck(line[j + 1]) && line[j + 2] == ']'
  }

  /** `^(\s*)([-*+])\s*\[([ xX])\]\s*(.*)$`, with the last group right-trimmed. */
  function MatchTodo(line: string): Option<Head> {
    var i := SkipSpace(line, 0);
    if !HasBox(line, i) then None
    else
      var j := SkipSpace(line, i + 1);
      var k := SkipSpace(line, j + 3);
      Some(Head(line[..i], line[i], line[j + 1], RStrip(line[k..])))
  }

  /** len(ln) - len(ln.lstrip(" ")): spaces only, tabs do not count. */
  function LeadingSpaces(line: string): (n: nat)
    ensures n <= |line|
  {
    if line == "" || line[0] != ' ' then 0 else 1 + LeadingSpaces(line[1..])
  }

  /** What the scanner sees of a line. */
  datatype Line =
    | Blank
    | Checkbox(head: Head)
    | Plain(raw: string, spaces: nat)

  function Classify(line: string): Line {
    if IsBlank(line) then Blank
    else
      match MatchTodo(line)
      case Some(h) => Checkbox(h)
      case None => Plain(line, LeadingSpaces(line))
  }

  function Lines(raw: seq<string>): (r: seq<Line>)
    ensures |r| == |raw|
  {
    if raw == [] then [] else [Classify(raw[0])] + Lines(raw[1..])
  }

  lemma {:induction false} LineAt(raw: seq<string>, k: nat)
    requires k < |raw|
    ensures Lines(raw)[k] == Classify(raw[k])
  {
    if k > 0 {
      LineAt(raw[1..], k - 1);
    }
  }

  predicate IsDetail(line: Line, col: nat) {
    line.Plain? && line.spaces >= col
  }

  /** How many lines after a checkbox line belong to its block: up to the last detail line of the scan. */
  function Extent(lines: seq<Line>, col: nat): (n: nat)
    ensures n <= |lines|
    ensures n > 0 ==> IsDetail(lines[n - 1], col)
  {
    if lines == [] then 0
    else if lines[0].Blank? then
      var n := Extent(lines[1..], col);
      if n == 0 then 0 else n + 1
    else if IsDetail(lines[0], col) then 1 + Extent(lines[1..], col)
    else 0
  }

  /** Python's line[col:]. */
  function DropChars(line: string, col: nat): string {
    if col <= |line| then line[col..] else ""
  }

  function DedentLine(line: Line, col: nat): string {
    if line.Plain? then DropChars(line.raw, col) else ""
  }

  function Dedent(lines: seq<Line>, col: nat): seq<string> {
    if lines == [] then [] else [DedentLine(lines[0], col)] + Dedent(lines[1..], col)
  }

  lemma {:induction false} DedentAt(lines: seq<Line>, col: nat)
    ensures |Dedent(lines, col)| == |lines|
    ensures forall k :: 0 <= k < |lines| ==> Dedent(lines, col)[k] == DedentLine(lines[k], col)
  {
    if lines != [] {
      DedentAt(lines[1..], col);
    }
  }

  /** The column at which a checkbox line's details start. */
  function Column(h: Head): nat {
    |h.indent| + DETAIL_INDENT
  }

  /** The lines of the block that starts with the checkbox lines[0]. */
  function BlockSize(lines: seq<Line>): (n: nat)
    requires lines != [] && lines[0].Checkbox?
    ensures 1 <= n <= |lines|
  {
    1 + Extent(lines[1..], Column(lines[0].head))
  }

  predicate IsDone(h: Head) {
    h.check == 'x' || h.check == 'X'
  }

  /** What the parser records for a block found at line `at`. */
  function TodoOf(block: seq<Line>, at: nat): Todo
    requires block != [] && block[0].Checkbox?
  {
    var h := block[0].head;
    Todo(at, |h.indent|, IsDone(h), h.text, JoinFeeds(Dedent(block[1..], Column(h))), at + |block| - 1)
  }

  /** The todos of `lines`, whose first line is line number `base` of the file. */
  function Parse(lines: seq<Line>, base: nat): seq<Todo>
    decreases |lines|
  {
    if lines == [] then []
    else if !lines[0].Checkbox? then Parse(lines[1..], base + 1)
    else
      var n := BlockSize(lines);
      [TodoOf(lines[..n], base)] + Parse(lines[n..], base + n)
  }

  function ParseText(text: string): seq<Todo> {
    Parse(Lines(SplitLines(text)), 0)
  }

  // ----- the program's scan -----

  /** The scan has read lines[i + 1..j], of which the block is known to hold those up to `endIdx`. */
  ghost predicate Scanned(lines: seq<Line>, i: nat, j: nat, endIdx: nat, col: nat, details: seq<string>,
                          blanks: seq<string>)
  {
    && i <= endIdx < j <= |lines|
    && |details| == endIdx - i && |blanks| == j - endIdx - 1
    && details + blanks == Dedent(lines[i + 1..j], col)
    && Extent(lines[i + 1..], col) ==
       (var rest := Extent(lines[j..], col); if rest == 0 then endIdx - i else j - i - 1 + rest)
  }

  lemma ScanStarts(lines: seq<Line>, i: nat, col: nat)
    requires i < |lines|
    ensures Scanned(lines, i, i + 1, i, col, [], [])
  {
  }

  /** Reading one more line. */
  lemma DedentNext(lines: seq<Line>, i: nat, j: nat, col: nat)
    requires i < j < |lines|
    ensures Dedent(lines[i + 1..j + 1], col) == Dedent(lines[i + 1..j], col) + [DedentLine(lines[j], col)]
    ensures lines[j..][1..] == lines[j + 1..]
  {
    Slices(lines, i + 1, j + 1);
    DedentPush(lines[i + 1..j], lines[j], col);
  }

  lemma DedentPush(lines: seq<Line>, line: Line, col: nat)
    ensures Dedent(lines + [line], col) == Dedent(lines, col) + [DedentLine(line, col)]
  {
    var all := Dedent(lines + [line], col);
    DedentAt(lines, col);
    DedentAt(lines + [line], col);
    forall k | 0 <= k < |lines| ensures all[k] == Dedent(lines, col)[k] {
      assert (lines + [line])[k] == lines[k];
    }
  }

  lemma ScanBlank(lines: seq<Line>, i: nat, j: nat, endIdx: nat, col: nat, details: seq<string>, blanks: seq<string>)
    requires Scanned(lines, i, j, endIdx, col, details, blanks) && j < |lines| && lines[j].Blank?
    ensures Scanned(lines, i, j + 1, endIdx, col, details, blanks + [""])
  {
    DedentNext(lines, i, j, col);
    Regroup(details, blanks, [""]);
  }

  lemma ScanDetail(lines: seq<Line>, i: nat, j: nat, endIdx: nat, col: nat, details: seq<string>, blanks: seq<string>)
    requires Scanned(lines, i, j, endIdx, col, details, blanks) && j < |lines| && IsDetail(lines[j], col)
    ensures Scanned(lines, i, j + 1, j, col, details + blanks + [DropChars(lines[j].raw, col)], [])
  {
    DedentNext(lines, i, j, col);
  }

  lemma ScanEnds(lines: seq<Line>, i: nat, j: nat, endIdx: nat, col: nat, details: seq<string>, blanks: seq<string>)
    requires Scanned(lines, i, j, endIdx, col, details, blanks)
    requires j < |lines| ==> !lines[j].Blank? && !IsDetail(lines[j], col)
    ensures Extent(lines[i + 1..], col) == endIdx - i
    ensures details == Dedent(lines[i + 1..endIdx + 1], col)
  {
    DedentAt(lines[i + 1..j], col);
    DedentAt(lines[i + 1..endIdx + 1], col);
    assert details == (details + blanks)[..endIdx - i];
  }

  lemma BlockParsed(lines: seq<Line>, i: nat, endIdx: nat, details: seq<string>, before: seq<Todo>)
    requires i <= endIdx < |lines| && lines[i].Checkbox?
    requires Extent(lines[i + 1..], Column(lines[i].head)) == endIdx - i
    requires details == Dedent(lines[i + 1..endIdx + 1], Column(lines[i].head))
    ensures var h := lines[i].head;
      before + Parse(lines[i..], i) ==
      before + [Todo(i, |h.indent|, IsDone(h), h.text, JoinFeeds(details), endIdx)] +
      Parse(lines[endIdx + 1..], endIdx + 1)
  {
    var block, rest := lines[i..endIdx + 1], lines[endIdx + 1..];
    Slices(lines, i, endIdx + 1);
    ParseFirst(lines[i..], block, rest, i);
    Regroup(before, [TodoOf(block, i)], Parse(rest, endIdx + 1));
  }

  method ParseTodos(text: string) returns (out: seq<Todo>)
    ensures out == ParseText(text)
  {
    var lines := Lines(SplitLines(text));
    out := ScanTodos(lines);
  }

  method ScanTodos(lines: seq<Line>) returns (out: seq<Todo>)
    ensures out == Parse(lines, 0)
  {
    var n := |lines|;
    out := [];
    var i := 0;
    while i < n
      invariant 0 <= i <= n
      invariant Parse(lines, 0) == out + Parse(lines[i..], i)
    {
      if !lines[i].Checkbox? {
        assert lines[i..][1..] == lines[i + 1..];
        i := i + 1;
        continue;
      }
      var h := lines[i].head;
      var details, endIdx := ScanDetails(lines, i, |h.indent| + DETAIL_INDENT);
      BlockParsed(lines, i, endIdx, details, out);
      out := out + [Todo(i, |h.indent|, IsDone(h), h.text, JoinFeeds(details), endIdx)];
      i := endIdx + 1;
    }
  }

  /** The inner loop: reads on from the checkbox at line `i`. */
  method ScanDetails(lines: seq<Line>, i: nat, col: nat) returns (details: seq<string>, endIdx: nat)
    requires i < |lines|
    ensures i <= endIdx < |lines| && Extent(lines[i + 1..], col) == endIdx - i
    ensures details == Dedent(lines[i + 1..endIdx + 1], col)
  {
    details, endIdx := [], i;
    var blanks: seq<string> := [];
    var j := i + 1;
    ScanStarts(lines, i, col);
    while j < |lines|
      invariant Scanned(lines, i, j, endIdx, col, details, blanks)
    {
      if lines[j].Blank? {
        ScanBlank(lines, i, j, endIdx, col, details, blanks);
        blanks := blanks + [""];
        j := j + 1;
        continue;
      }
      if lines[j].Checkbox? || lines[j].spaces < col {
        break;
      }
      ScanDetail(lines, i, j, endIdx, col, details, blanks);
      details := details + blanks;
      blanks := [];
      details := details + [DropChars(lines[j].raw, col)];
      endIdx := j;
      j := j + 1;
    }
    ScanEnds(lines, i, j, endIdx, col, details, blanks);
  }

  // ----- how a parse splits: the scanner re-synchronises -----

  predicate AllContinue(lines: seq<Line>, col: nat) {
    forall k | 0 <= k < |lines| :: lines[k].Blank? || IsDetail(lines[k], col)
  }

  /** The detail column of a block whose scan is still going at the end of `lines`. */
  function OpenColumn(lines: seq<Line>): Option<nat>
    decreases |lines|
  {
    if lines == [] then None
    else if !lines[0].Checkbox? then OpenColumn(lines[1..])
    else if AllContinue(lines[1..], Column(lines[0].head)) then Some(Column(lines[0].head))
    else OpenColumn(lines[BlockSize(lines)..])
  }

  /** A block left open by `a` takes in lines of `b` as its details. */
  predicate Swallows(a: seq<Line>, b: seq<Line>) {
    OpenColumn(a).Some? && Extent(b, OpenColumn(a).value) > 0
  }

  lemma {:induction false} ExtentConcat(a: seq<Line>, b: seq<Line>, col: nat)
    ensures Extent(a + b, col) ==
            if AllContinue(a, col) && Extent(b, col) > 0 then |a| + Extent(b, col) else Extent(a, col)
  {
    if a == [] {
      assert a + b == b;
    } else {
      assert (a + b)[1..] == a[1..] + b;
      assert AllContinue(a, col) <==> (a[0].Blank? || IsDetail(a[0], col)) && AllContinue(a[1..], col);
      ExtentConcat(a[1..], b, col);
    }
  }

  lemma {:induction false} BlankTail(lines: seq<Line>, col: nat)
    requires AllContinue(lines, col)
    ensures forall k :: Extent(lines, col) <= k < |lines| ==> lines[k].Blank?
  {
    if lines != [] {
      BlankTail(lines[1..], col);
      forall k | Extent(lines, col) <= k < |lines| ensures lines[k].Blank? {
        assert k > 0 ==> lines[k] == lines[1..][k - 1];
      }
    }
  }

  lemma {:induction false} BlankLines(lines: seq<Line>, base: nat)
    requires forall k :: 0 <= k < |lines| ==> lines[k].Blank?
    ensures OpenColumn(lines) == None && Parse(lines, base) == []
  {
    if lines != [] {
      assert lines[0].Blank?;
      BlankLines(lines[1..], base + 1);
    }
  }

  /** Lines that start with a block. */
  lemma ParseFirst(lines: seq<Line>, block: seq<Line>, rest: seq<Line>, base: nat)
    requires block != [] && block[0].Checkbox? && lines == block + rest && BlockSize(lines) == |block|
    ensures Parse(lines, base) == [TodoOf(block, base)] + Parse(rest, base + |block|)
  {
    assert lines[..|block|] == block && lines[|block|..] == rest;
  }

  lemma SameBlockSize(a: seq<Line>, b: seq<Line>)
    requires a != [] && a[0].Checkbox?
    requires AllContinue(a[1..], Column(a[0].head)) ==> Extent(b, Column(a[0].head)) == 0
    ensures (a + b)[0].Checkbox? && BlockSize(a + b) == BlockSize(a)
    ensures a + b == a[..BlockSize(a)] + (a[BlockSize(a)..] + b)
  {
    AppendShape(a, b, BlockSize(a));
    ExtentConcat(a[1..], b, Column(a[0].head));
  }

  /** The first block of `a + b` is the first block of `a`, unless it is open and swallows. */
  lemma FirstBlockConcat(a: seq<Line>, b: seq<Line>, base: nat) returns (t: Todo, n: nat)
    requires a != [] && a[0].Checkbox?
    requires AllContinue(a[1..], Column(a[0].head)) ==> Extent(b, Column(a[0].head)) == 0
    ensures n == BlockSize(a)
    ensures Parse(a, base) == [t] + Parse(a[n..], base + n)
    ensures Parse(a + b, base) == [t] + Parse(a[n..] + b, base + n)
  {
    n := BlockSize(a);
    t := TodoOf(a[..n], base);
    SameBlockSize(a, b);
    ParseFirst(a, a[..n], a[n..], base);
    ParseFirst(a + b, a[..n], a[n..] + b, base);
  }

  /** After an open block nothing is left but blank lines. */
  lemma OpenBlockTail(a: seq<Line>, base: nat)
    requires a != [] && a[0].Checkbox? && AllContinue(a[1..], Column(a[0].head))
    ensures OpenColumn(a[BlockSize(a)..]) == None
  {
    BlankTail(a[1..], Column(a[0].head));
    assert a[1..][BlockSize(a) - 1..] == a[BlockSize(a)..];
    BlankLines(a[BlockSize(a)..], base);
  }

  /** Appending lines that no open block swallows: both parts parse as if alone. */
  lemma {:induction false} ParseConcat(a: seq<Line>, b: seq<Line>, base: nat)
    requires !Swallows(a, b)
    ensures Parse(a + b, base) == Parse(a, base) + Parse(b, base + |a|)
    decreases |a|
  {
    if a == [] {
      assert a + b == b;
    } else if !a[0].Checkbox? {
      ParseSkip(a, b, base);
      ParseConcat(a[1..], b, base + 1);
    } else {
      var n := BlockSize(a);
      if AllContinue(a[1..], Column(a[0].head)) {
        OpenBlockTail(a, base + n);
      }
      ParseConcat(a[n..], b, base + n);
      assert (base + n) + |a[n..]| == base + |a|;
      ConcatBlock(a, b, base, a[n..]);
    }
  }

  lemma ConcatBlock(a: seq<Line>, b: seq<Line>, base: nat, rest: seq<Line>)
    requires a != [] && a[0].Checkbox? && rest == a[BlockSize(a)..]
    requires AllContinue(a[1..], Column(a[0].head)) ==> Extent(b, Column(a[0].head)) == 0
    requires Parse(rest + b, base + BlockSize(a)) == Parse(rest, base + BlockSize(a)) + Parse(b, base + |a|)
    ensures Parse(a + b, base) == Parse(a, base) + Parse(b, base + |a|)
  {
    var t, n := FirstBlockConcat(a, b, base);
    Regroup([t], Parse(rest, base + n), Parse(b, base + |a|));
  }

  /** A block that swallows ends later than it would have by itself. */
  lemma SwallowingBlock(a: seq<Line>, b: seq<Line>, base: nat)
    requires a != [] && a[0].Checkbox? && AllContinue(a[1..], Column(a[0].head)) && Extent(b, Column(a[0].head)) > 0
    ensures Parse(a + b, base) != [] && Parse(a, base) != []
    ensures Parse(a + b, base)[0].endIdx >= base + |a| > Parse(a, base)[0].endIdx
  {
    var ab := a + b;
    assert ab[1..] == a[1..] + b;
    ExtentConcat(a[1..], b, Column(a[0].head));
    assert BlockSize(ab) > |a| >= BlockSize(a);
    TodoShift(ab[..BlockSize(ab)], base, base);
    TodoShift(a[..BlockSize(a)], base, base);
  }

  lemma SwallowsLater(a: seq<Line>, b: seq<Line>, base: nat, rest: seq<Line>)
    requires a != [] && a[0].Checkbox? && !AllContinue(a[1..], Column(a[0].head)) && rest == a[BlockSize(a)..]
    requires Parse(rest + b, base + BlockSize(a)) != Parse(rest, base + BlockSize(a)) + Parse(b, base + |a|)
    ensures Parse(a + b, base) != Parse(a, base) + Parse(b, base + |a|)
  {
    var t, n := FirstBlockConcat(a, b, base);
    DiffersAfter(t, Parse(rest + b, base + n), Parse(rest, base + n), Parse(b, base + |a|),
                 Parse(a + b, base), Parse(a, base));
  }

  lemma SwallowingFirst(a: seq<Line>, b: seq<Line>, base: nat)
    requires Swallows(a, b) && a[0].Checkbox? && AllContinue(a[1..], Column(a[0].head))
    ensures Parse(a + b, base) != Parse(a, base) + Parse(b, base + |a|)
  {
    SwallowingBlock(a, b, base);
    FirstDiffers(Parse(a + b, base), Parse(a, base), Parse(b, base + |a|));
  }

  /** A line that is no checkbox, and not in a block, reports nothing. */
  lemma ParseSkip(a: seq<Line>, b: seq<Line>, base: nat)
    requires a != [] && !a[0].Checkbox?
    ensures Parse(a, base) == Parse(a[1..], base + 1)
    ensures Parse(a + b, base) == Parse(a[1..] + b, base + 1)
    ensures OpenColumn(a) == OpenColumn(a[1..])
  {
    AppendShape(a, b, 1);
  }

  /** When an open block does swallow lines, the parse is not the two parts put together. */
  lemma {:induction false} SwallowsBreaks(a: seq<Line>, b: seq<Line>, base: nat)
    requires Swallows(a, b)
    ensures Parse(a + b, base) != Parse(a, base) + Parse(b, base + |a|)
    decreases |a|
  {
    if !a[0].Checkbox? {
      ParseSkip(a, b, base);
      SwallowsBreaks(a[1..], b, base + 1);
    } else if AllContinue(a[1..], Column(a[0].head)) {
      SwallowingFirst(a, b, base);
    } else {
      var n := BlockSize(a);
      SwallowsBreaks(a[n..], b, base + n);
      assert (base + n) + |a[n..]| == base + |a|;
      SwallowsLater(a, b, base, a[n..]);
    }
  }

  lemma DiffersAfter(t: Todo, all: seq<Todo>, p: seq<Todo>, q: seq<Todo>, all': seq<Todo>, p': seq<Todo>)
    requires all != p + q && all' == [t] + all && p' == [t] + p
    ensures all' != p' + q
  {
    SameHeadDiffers(t, all, p + q);
    Regroup([t], p, q);
  }

  // ----- shifting -----

  function ShiftTodo(t: Todo, delta: int): Todo
    requires t.lineIdx + delta >= 0 && t.endIdx + delta >= 0
  {
    t.(lineIdx := t.lineIdx + delta, endIdx := t.endIdx + delta)
  }

  predicate CanShift(todos: seq<Todo>, delta: int) {
    forall k | 0 <= k < |todos| :: todos[k].lineIdx + delta >= 0 && todos[k].endIdx + delta >= 0
  }

  /** Every todo moved by the same number of lines. */
  function Shift(todos: seq<Todo>, delta: int): (r: seq<Todo>)
    requires CanShift(todos, delta)
    ensures |r| == |todos|
    ensures forall k :: 0 <= k < |r| ==> r[k] == ShiftTodo(todos[k], delta)
  {
    if todos == [] then [] else
      assert forall k :: 0 <= k < |todos[1..]| ==> todos[1..][k] == todos[k + 1];
      [ShiftTodo(todos[0], delta)] + Shift(todos[1..], delta)
  }

  lemma TodoShift(block: seq<Line>, at: nat, at': nat)
    requires block != [] && block[0].Checkbox?
    ensures var t := TodoOf(block, at);
      t.lineIdx == at && t.endIdx == at + |block| - 1 && TodoOf(block, at') == ShiftTodo(t, at' - at)
  {
  }

  lemma {:induction false} ParseShift(lines: seq<Line>, base: nat, base': nat)
    ensures CanShift(Parse(lines, base), base' - base)
    ensures Parse(lines, base') == Shift(Parse(lines, base), base' - base)
    decreases |lines|
  {
    if lines == [] {
    } else if !lines[0].Checkbox? {
      ParseShift(lines[1..], base + 1, base' + 1);
    } else {
      var n := BlockSize(lines);
      ParseShift(lines[n..], base + n, base' + n);
      ShiftFirst(lines, lines[..n], lines[n..], base, base');
    }
  }

  lemma ShiftFirst(lines: seq<Line>, block: seq<Line>, later: seq<Line>, base: nat, base': nat)
    requires block != [] && block[0].Checkbox? && lines == block + later && BlockSize(lines) == |block|
    requires CanShift(Parse(later, base + |block|), base' - base)
    requires Parse(later, base' + |block|) == Shift(Parse(later, base + |block|), base' - base)
    ensures CanShift(Parse(lines, base), base' - base)
    ensures Parse(lines, base') == Shift(Parse(lines, base), base' - base)
  {
    ParseFirst(lines, block, later, base);
    ParseFirst(lines, block, later, base');
    TodoShift(block, base, base');
    ShiftCons(TodoOf(block, base), Parse(later, base + |block|), TodoOf(block, base'), Parse(later, base' + |block|),
              Parse(lines, base), Parse(lines, base'), base' - base);
  }

  lemma ShiftCons(t: Todo, rest: seq<Todo>, t': Todo, rest': seq<Todo>, todos: seq<Todo>, todos': seq<Todo>, delta: int)
    requires t.lineIdx + delta >= 0 && t.endIdx + delta >= 0 && CanShift(rest, delta)
    requires t' == ShiftTodo(t, delta) && rest' == Shift(rest, delta)
    requires todos == [t] + rest && todos' == [t'] + rest'
    ensures CanShift(todos, delta) && todos' == Shift(todos, delta)
  {
    assert todos[1..] == rest;
  }

  // ----- locating a todo in its file -----

  /** Todos come in file order, within the file, and their blocks do not overlap. */
  ghost predicate InOrder(todos: seq<Todo>, lo: nat, hi: nat) {
    && (forall k :: 0 <= k < |todos| ==> lo <= todos[k].lineIdx <= todos[k].endIdx < hi)
    && (forall j, k :: 0 <= j < k < |todos| ==> todos[j].endIdx < todos[k].lineIdx)
  }

  lemma {:induction false} ParseInOrder(lines: seq<Line>, base: nat)
    ensures InOrder(Parse(lines, base), base, base + |lines|)
    decreases |lines|
  {
    if lines == [] {
    } else if !lines[0].Checkbox? {
      ParseInOrder(lines[1..], base + 1);
    } else {
      var n := BlockSize(lines);
      ParseInOrder(lines[n..], base + n);
    }
  }

  lemma {:induction false} TodosAreCheckboxes(lines: seq<Line>, base: nat, k: nat) returns (at: nat)
    requires k < |Parse(lines, base)|
    ensures at < |lines| && lines[at].Checkbox? && Parse(lines, base)[k].lineIdx == base + at
    decreases |lines|
  {
    if !lines[0].Checkbox? {
      at := TodosAreCheckboxes(lines[1..], base + 1, k);
      at := at + 1;
    } else {
      var n := BlockSize(lines);
      var rest := lines[n..];
      ParseAtCheckbox(lines, base, k);
      if k == 0 {
        at := 0;
      } else {
        at := TodosAreCheckboxes(rest, base + n, k - 1);
        at := at + n;
      }
    }
  }

  lemma ParseAtCheckbox(lines: seq<Line>, base: nat, k: nat)
    requires lines != [] && lines[0].Checkbox? && k < |Parse(lines, base)|
    ensures var n := BlockSize(lines);
      if k == 0 then Parse(lines, base)[k].lineIdx == base
      else k - 1 < |Parse(lines[n..], base + n)| && Parse(lines, base)[k] == Parse(lines[n..], base + n)[k - 1]
  {
    var n := BlockSize(lines);
    FirstOrLater(TodoOf(lines[..n], base), Parse(lines[n..], base + n), Parse(lines, base), k);
  }

  lemma {:induction false} ExtentIsMaximal(lines: seq<Line>, col: nat)
    ensures Extent(lines[Extent(lines, col)..], col) == 0
  {
    if lines != [] {
      ExtentIsMaximal(lines[1..], col);
      var n := Extent(lines, col);
      if n > 0 {
        assert lines[n..] == lines[1..][n - 1..];
      } else {
        assert lines[0..] == lines;
      }
    }
  }

  /** A file cut at a checkbox line. */
  lemma CutAtTodo(a: seq<Line>, x: seq<Line>)
    requires x != [] && x[0].Checkbox?
    ensures var n := BlockSize(x);
      Parse(a + x, 0) == Parse(a, 0) + [TodoOf(x[..n], |a|)] + Parse(x[n..], |a| + n)
  {
    ParseConcat(a, x, 0);
    var n := BlockSize(x);
    assert Parse(x, |a|) == [TodoOf(x[..n], |a|)] + Parse(x[n..], |a| + n);
    Regroup(Parse(a, 0), [TodoOf(x[..n], |a|)], Parse(x[n..], |a| + n));
  }

  lemma CutIntoParts(a: seq<Line>, x: seq<Line>, block: seq<Line>, rest: seq<Line>)
    requires x != [] && x[0].Checkbox? && block == x[..BlockSize(x)] && rest == x[BlockSize(x)..]
    ensures Parse(a + x, 0) == Parse(a, 0) + [TodoOf(block, |a|)] + Parse(rest, |a| + |block|)
  {
    CutAtTodo(a, x);
  }

  lemma BlockBounds(x: seq<Line>, block: seq<Line>, rest: seq<Line>)
    requires x != [] && x[0].Checkbox? && block == x[..BlockSize(x)] && rest == x[BlockSize(x)..]
    ensures Extent(block[1..], Column(x[0].head)) == |block| - 1 && Extent(rest, Column(x[0].head)) == 0
  {
    var n, col, tail := BlockSize(x), Column(x[0].head), x[1..];
    CutBehindFirst(x, n);
    ExtentIsMaximal(tail, col);
    ExtentPrefix(tail, col);
  }

  /** In an ordered list, the todo recorded at a line stands at one position only. */
  lemma PositionOf(all: seq<Todo>, before: seq<Todo>, t: Todo, after: seq<Todo>, hi: nat, k: nat)
    requires all == before + [t] + after && InOrder(all, 0, hi)
    requires k < |all| && all[k].lineIdx == t.lineIdx
    ensures before == all[..k] && all[k] == t && after == all[k + 1..]
  {
    Middle(before, t, after);
    assert all[k].lineIdx <= all[k].endIdx && t.lineIdx <= t.endIdx;
  }

  /** The file around the k-th todo: what precedes it, its block, and what follows. */
  lemma Locate(lines: seq<Line>, k: nat) returns (at: nat, end: nat)
    requires k < |Parse(lines, 0)|
    ensures at == Parse(lines, 0)[k].lineIdx && end == Parse(lines, 0)[k].endIdx + 1
    ensures at < end <= |lines| && lines[at].Checkbox?
    ensures Parse(lines, 0)[k] == TodoOf(lines[at..end], at)
    ensures Parse(lines[..at], 0) == Parse(lines, 0)[..k]
    ensures Parse(lines[end..], end) == Parse(lines, 0)[k + 1..]
    ensures Extent(lines[at..end][1..], Column(lines[at].head)) == end - at - 1
    ensures Extent(lines[end..], Column(lines[at].head)) == 0
  {
    at := TodosAreCheckboxes(lines, 0, k);
    end := CutAround(lines, at);
    ParseInOrder(lines, 0);
    TodoShift(lines[at..end], at, at);
    PositionOf(Parse(lines, 0), Parse(lines[..at], 0), TodoOf(lines[at..end], at), Parse(lines[end..], end),
               |lines|, k);
  }

  /** The block of a checkbox line, between what precedes and what follows it. */
  lemma CutAround(lines: seq<Line>, at: nat) returns (end: nat)
    requires at < |lines| && lines[at].Checkbox?
    ensures at < end <= |lines| && lines[at..end][0] == lines[at]
    ensures Parse(lines, 0) == Parse(lines[..at], 0) + [TodoOf(lines[at..end], at)] + Parse(lines[end..], end)
    ensures Extent(lines[at..end][1..], Column(lines[at].head)) == end - at - 1
    ensures Extent(lines[end..], Column(lines[at].head)) == 0
  {
    var a, x := lines[..at], lines[at..];
    end := at + BlockSize(x);
    Cuts(lines, at, end);
    CutIntoParts(a, x, lines[at..end], lines[end..]);
    BlockBounds(x, lines[at..end], lines[end..]);
  }

  lemma {:induction false} ExtentPrefix(lines: seq<Line>, col: nat)
    ensures Extent(lines[..Extent(lines, col)], col) == Extent(lines, col)
  {
    if lines != [] && Extent(lines, col) > 0 {
      ExtentPrefix(lines[1..], col);
      var n := Extent(lines, col);
      assert lines[..n][1..] == lines[1..][..n - 1];
    }
  }

  /** A line that does not continue the block ends it. */
  lemma {:induction false} ExtentStops(lines: seq<Line>, col: nat, k: nat)
    requires k < |lines| && !lines[k].Blank? && !IsDetail(lines[k], col)
    ensures Extent(lines, col) <= k
  {
    if k > 0 {
      ExtentStops(lines[1..], col, k - 1);
    }
  }

  lemma {:induction false} ExtentAll(lines: seq<Line>, col: nat)
    requires AllContinue(lines, col) && (lines == [] || !lines[|lines| - 1].Blank?)
    ensures Extent(lines, col) == |lines|
  {
    if lines != [] {
      ExtentAll(lines[1..], col);
    }
  }
}
