/** What the parser reports. */
module TodoReported {
  import opened Optional
  import opened Sequences
  import opened TextLines
  import opened TodoParser
  import opened TodoRender
  import opened TodoDetails

  // What the parser reports, told from the lines of the file and their characters alone.

  // ----- a checkbox line -----

  /** Indent, marker, white space, the box, and the rest. */
  datatype Parts = Parts(indent: string, marker: char, gap: string, check: char, rest: string)

  function Joined(p: Parts): string {
    p.indent + [p.marker] + p.gap + "[" + [p.check] + "]" + p.rest
  }

  predicate AreParts(line: string, p: Parts) {
    line == Joined(p) && IsBlank(p.indent) && IsBlank(p.gap) && p.marker in "-*+" && p.check in " xX"
  }

  ghost predicate IsBox(line: string) {
    exists p :: AreParts(line, p)
  }

  /** `text` without white space at its ends; around it nothing but white space. */
  ghost predicate TrimOf(text: string, whole: string) {
    (text == "" || (!IsSpace(text[0]) && !IsSpace(text[|text| - 1]))) &&
    exists a, b :: whole == a + text + b && IsBlank(a) && IsBlank(b)
  }

  lemma PartChars(line: string, p: Parts)
    requires line == Joined(p)
    ensures var (i, j) := (|p.indent|, |p.indent| + 1 + |p.gap|);
      && |line| == j + 3 + |p.rest| && line[i] == p.marker
      && line[j] == '[' && line[j + 1] == p.check && line[j + 2] == ']'
      && line[..i] == p.indent && line[i + 1..j] == p.gap && line[j + 3..] == p.rest
      && (forall k :: 0 <= k < i ==> line[k] == p.indent[k]) && forall k :: i < k < j ==> line[k] == p.gap[k - i - 1]
  {
  }

  lemma PartsMatch(line: string, p: Parts)
    requires AreParts(line, p)
    ensures MatchTodo(line).Some? && !IsBlank(line)
    ensures var h := MatchTodo(line).value;
      h.indent == p.indent && h.marker == p.marker && h.check == p.check && TrimOf(h.text, p.rest)
  {
    var i, j := |p.indent|, |p.indent| + 1 + |p.gap|;
    PartChars(line, p);
    CharsMatch(line, p, i, j);
  }

  lemma CharsMatch(line: string, p: Parts, i: nat, j: nat)
    requires IsBlank(p.indent) && IsBlank(p.gap) && p.marker in "-*+" && p.check in " xX"
    requires i == |p.indent| && j == i + 1 + |p.gap| && j + 2 < |line|
    requires (forall k :: 0 <= k < i ==> line[k] == p.indent[k]) && line[i] == p.marker
    requires forall k :: i < k < j ==> line[k] == p.gap[k - i - 1]
    requires line[j] == '[' && line[j + 1] == p.check && line[j + 2] == ']'
    ensures !IsBlank(line) && MatchTodo(line).Some? && TrimOf(MatchTodo(line).value.text, line[j + 3..])
    ensures var h := MatchTodo(line).value; h.indent == line[..i] && h.marker == p.marker && h.check == p.check
  {
    PartsSkipped(line, p, i, j);
    BoxMatches(line, i, j);
    RestTrimmed(line, j + 3);
  }

  lemma BoxMatches(line: string, i: nat, j: nat)
    requires i < j && j + 2 < |line| && SkipSpace(line, 0) == i && SkipSpace(line, i + 1) == j
    requires IsMarker(line[i]) && line[j] == '[' && IsCheck(line[j + 1]) && line[j + 2] == ']'
    ensures MatchTodo(line) ==
            Some(Head(line[..i], line[i], line[j + 1], RStrip(line[SkipSpace(line, j + 3)..])))
  {
  }

  lemma PartsSkipped(line: string, p: Parts, i: nat, j: nat)
    requires IsBlank(p.indent) && IsBlank(p.gap) && p.marker in "-*+"
    requires i == |p.indent| && j == i + 1 + |p.gap| < |line|
    requires (forall k :: 0 <= k < i ==> line[k] == p.indent[k]) && line[i] == p.marker && line[j] == '['
    requires forall k :: i < k < j ==> line[k] == p.gap[k - i - 1]
    ensures SkipSpace(line, 0) == i && SkipSpace(line, i + 1) == j && !IsBlank(line)
  {
    SpaceChars();
    SkipSpaceIs(line, 0, i);
    SkipSpaceIs(line, i + 1, j);
  }

  lemma RestTrimmed(line: string, from: nat)
    requires from <= |line|
    ensures TrimOf(RStrip(line[SkipSpace(line, from)..]), line[from..])
  {
    var k := SkipSpace(line, from);
    SkipSpaceStops(line, from);
    StrippedTail(line[from..], line[from..k], line[k..]);
  }

  lemma StrippedTail(whole: string, a: string, tail: string)
    requires whole == a + tail && IsBlank(a) && (tail != "" ==> !IsSpace(tail[0]))
    ensures TrimOf(RStrip(tail), whole)
  {
    RStripIs(tail);
    var text := RStrip(tail);
    var b := tail[|text|..];
    assert tail == text + b;
    Regroup(a, text, b);
    if text != "" { assert text[0] == tail[0]; }
    assert IsBlank(b);
  }

  lemma CutBox(line: string, i: nat, j: nat)
    requires i < j && j + 2 < |line| && line[j] == '[' && line[j + 2] == ']'
    ensures line == line[..i] + [line[i]] + line[i + 1..j] + "[" + [line[j + 1]] + "]" + line[j + 3..]
  {
  }

  lemma MatchParts(line: string) returns (p: Parts)
    requires MatchTodo(line).Some?
    ensures AreParts(line, p)
  {
    var i := SkipSpace(line, 0);
    var j := SkipSpace(line, i + 1);
    SkipSpaceStops(line, 0);
    SkipSpaceStops(line, i + 1);
    p := Parts(line[..i], line[i], line[i + 1..j], line[j + 1], line[j + 3..]);
    CutBox(line, i, j);
    assert IsBlank(p.indent) && IsBlank(p.gap);
  }

  lemma BoxIsTodo(line: string)
    ensures IsBox(line) <==> MatchTodo(line).Some?
    ensures IsBox(line) ==> !IsBlank(line)
  {
    if MatchTodo(line).Some? {
      var p := MatchParts(line);
    }
    if p :| AreParts(line, p) {
      PartsMatch(line, p);
    }
  }

  // ----- a block -----

  /** Blank, or at least `col` spaces and no checkbox line. */
  ghost predicate Belongs(line: string, col: nat) {
    IsBlank(line) || (!IsBox(line) && |line| >= col && forall k :: 0 <= k < col ==> line[k] == ' ')
  }

  predicate Undented(line: string, col: nat, detail: string) {
    if IsBlank(line) then detail == "" else |line| >= col && detail == line[col..]
  }

  /** The todo's own line says whether it is ticked, how far it is indented, and its text. */
  ghost predicate HeadRead(line: string, t: Todo) {
    exists p :: AreParts(line, p) && t.indent == |p.indent| && (t.done <==> p.check != ' ') && TrimOf(t.text, p.rest)
  }

  predicate DetailAt(raw: seq<string>, at: nat, col: nat, details: seq<string>, i: int) {
    0 <= i < |details| && at + 1 + i < |raw| && Undented(raw[at + 1 + i], col, details[i])
  }

  ghost predicate BelongsAt(raw: seq<string>, j: int, col: nat) {
    0 <= j < |raw| && Belongs(raw[j], col)
  }

  /** The lines after it up to its end, without the indentation, are its details. */
  ghost predicate DetailsRead(raw: seq<string>, t: Todo, col: nat) {
    exists details: seq<string> ::
      |details| == t.endIdx - t.lineIdx && t.details == JoinFeeds(details) &&
      forall i :: 0 <= i < |details| ==> DetailAt(raw, t.lineIdx, col, details, i)
  }

  /** Its block ends with the last line that belongs to it: blank lines only if more follows. */
  ghost predicate BlockRead(raw: seq<string>, t: Todo, col: nat)
    requires t.lineIdx <= t.endIdx < |raw|
  {
    && (forall j :: t.lineIdx < j <= t.endIdx ==> BelongsAt(raw, j, col))
    && (t.lineIdx < t.endIdx ==> !IsBlank(raw[t.endIdx]))
    && forall m: nat {:trigger BlankLines(raw, t.endIdx + 1, m)} ::
         t.endIdx < m < |raw| && BlankLines(raw, t.endIdx + 1, m) && !IsBlank(raw[m]) ==> !BelongsAt(raw, m, col)
  }

  predicate BlankLines(raw: seq<string>, from: nat, end: nat)
    requires end <= |raw|
  {
    forall j | from <= j < end :: IsBlank(raw[j])
  }

  ghost predicate IsReport(raw: seq<string>, t: Todo) {
    t.lineIdx <= t.endIdx < |raw| && HeadRead(raw[t.lineIdx], t) &&
    DetailsRead(raw, t, t.indent + 6) && BlockRead(raw, t, t.indent + 6)
  }

  // ----- what the scanner's own terms mean -----

  lemma {:induction false} EnoughSpaces(line: string, col: nat)
    ensures LeadingSpaces(line) >= col <==> |line| >= col && forall k :: 0 <= k < col ==> line[k] == ' '
  {
    if line != "" && line[0] == ' ' && col > 0 {
      EnoughSpaces(line[1..], col - 1);
      assert forall k :: 1 <= k < |line| ==> line[k] == line[1..][k - 1];
    }
  }

  lemma DetailBelongs(line: string, col: nat)
    ensures Classify(line).Blank? || IsDetail(Classify(line), col) <==> Belongs(line, col)
    ensures Classify(line).Blank? <==> IsBlank(line)
    ensures Classify(line).Checkbox? <==> IsBox(line)
    ensures Belongs(line, col) ==> Undented(line, col, DedentLine(Classify(line), col))
  {
    BoxIsTodo(line);
    EnoughSpaces(line, col);
  }

  lemma {:induction false} ExtentAll(lines: seq<Line>, col: nat, j: nat)
    requires j < Extent(lines, col)
    ensures lines[j].Blank? || IsDetail(lines[j], col)
  {
    if j > 0 { ExtentAll(lines[1..], col, j - 1); }
  }

  lemma {:induction false} ExtentNone(lines: seq<Line>, col: nat, m: nat)
    requires Extent(lines, col) == 0 && m < |lines| && forall j :: 0 <= j < m ==> lines[j].Blank?
    ensures lines[m].Blank? || !IsDetail(lines[m], col)
  {
    if m > 0 {
      assert lines[0].Blank?;
      ExtentNone(lines[1..], col, m - 1);
    }
  }

  predicate ClassAt(raw: seq<string>, lines: seq<Line>, j: int) {
    0 <= j < |raw| && j < |lines| && lines[j] == Classify(raw[j])
  }

  ghost predicate Classified(raw: seq<string>, lines: seq<Line>) {
    |lines| == |raw| && forall j :: 0 <= j < |raw| ==> ClassAt(raw, lines, j)
  }

  lemma LinesClassified(raw: seq<string>)
    ensures Classified(raw, Lines(raw))
  {
    forall j | 0 <= j < |raw| ensures ClassAt(raw, Lines(raw), j) { LineAt(raw, j); }
  }

  predicate InBlock(lines: seq<Line>, j: int, col: nat) {
    0 <= j < |lines| && (lines[j].Blank? || IsDetail(lines[j], col))
  }

  /** Detail `i` is the `i`-th line below line `at`. */
  predicate IsDedented(lines: seq<Line>, at: nat, col: nat, details: seq<string>, i: int) {
    0 <= i < |details| && at + 1 + i < |lines| && details[i] == DedentLine(lines[at + 1 + i], col)
  }

  /** Lines `from` to `end` all belong to a block of this column, and the last is not blank. */
  ghost predicate BlockHolds(lines: seq<Line>, from: nat, end: nat, col: nat)
    requires from <= end <= |lines|
  {
    && (forall j :: from <= j < end ==> InBlock(lines, j, col))
    && (from < end ==> !lines[end - 1].Blank?)
  }

  predicate AllBlank(lines: seq<Line>, from: nat, end: nat)
    requires end <= |lines|
  {
    forall j | from <= j < end :: lines[j].Blank?
  }

  ghost predicate BlockOver(lines: seq<Line>, end: nat, col: nat) {
    forall m: nat {:trigger AllBlank(lines, end, m)} ::
      end <= m < |lines| && AllBlank(lines, end, m) ==> lines[m].Blank? || !IsDetail(lines[m], col)
  }

  lemma ExtentHolds(lines: seq<Line>, from: nat, end: nat, col: nat, block: seq<Line>)
    requires from <= end <= |lines| && block == lines[from..end] && Extent(block, col) == |block|
    ensures BlockHolds(lines, from, end, col)
  {
    forall j | from <= j < end ensures InBlock(lines, j, col) {
      ExtentAll(block, col, j - from);
      assert block[j - from] == lines[j];
    }
    if from < end { assert block[|block| - 1] == lines[end - 1]; }
  }

  lemma ExtentOver(lines: seq<Line>, end: nat, col: nat, rest: seq<Line>)
    requires end <= |lines| && rest == lines[end..] && Extent(rest, col) == 0
    ensures BlockOver(lines, end, col)
  {
    forall m: nat | end <= m < |lines| && AllBlank(lines, end, m)
      ensures lines[m].Blank? || !IsDetail(lines[m], col)
    {
      assert forall j :: 0 <= j < m - end ==> rest[j] == lines[end + j];
      ExtentNone(rest, col, m - end);
      assert rest[m - end] == lines[m];
    }
  }

  lemma DedentedLines(lines: seq<Line>, at: nat, end: nat, col: nat, details: seq<string>)
    requires at < end <= |lines| && details == Dedent(lines[at + 1..end], col)
    ensures |details| == end - at - 1 && forall i :: 0 <= i < |details| ==> IsDedented(lines, at, col, details, i)
  {
    DedentAt(lines[at + 1..end], col);
    forall i | 0 <= i < |details| ensures IsDedented(lines, at, col, details, i) {
      assert lines[at + 1..end][i] == lines[at + 1 + i];
    }
  }

  // ----- the reports -----

  lemma HeadIsRead(line: string, h: Head, t: Todo)
    requires Classify(line) == Checkbox(h)
    requires t.indent == |h.indent| && t.done == IsDone(h) && t.text == h.text
    ensures HeadRead(line, t)
  {
    var p := MatchParts(line);
    PartsMatch(line, p);
    assert p.check in " xX";
  }

  lemma DetailsAreRead(raw: seq<string>, lines: seq<Line>, t: Todo, col: nat, details: seq<string>)
    requires Classified(raw, lines) && t.lineIdx <= t.endIdx < |raw|
    requires BlockHolds(lines, t.lineIdx + 1, t.endIdx + 1, col)
    requires |details| == t.endIdx - t.lineIdx && t.details == JoinFeeds(details)
    requires forall i :: 0 <= i < |details| ==> IsDedented(lines, t.lineIdx, col, details, i)
    ensures DetailsRead(raw, t, col)
  {
    forall i | 0 <= i < |details| ensures DetailAt(raw, t.lineIdx, col, details, i) {
      assert InBlock(lines, t.lineIdx + 1 + i, col) && ClassAt(raw, lines, t.lineIdx + 1 + i);
      OneDetail(raw, lines, t.lineIdx, col, details, i);
    }
  }

  lemma BlockIsRead(raw: seq<string>, lines: seq<Line>, t: Todo, col: nat)
    requires Classified(raw, lines) && t.lineIdx <= t.endIdx < |raw|
    requires BlockHolds(lines, t.lineIdx + 1, t.endIdx + 1, col) && BlockOver(lines, t.endIdx + 1, col)
    ensures BlockRead(raw, t, col)
  {
    forall j | t.lineIdx < j <= t.endIdx ensures BelongsAt(raw, j, col) {
      OneBelongs(raw, lines, j, col);
      assert InBlock(lines, j, col);
    }
    OneBelongs(raw, lines, t.endIdx, col);
    forall m: nat | t.endIdx < m < |raw| && BlankLines(raw, t.endIdx + 1, m) && !IsBlank(raw[m])
      ensures !BelongsAt(raw, m, col)
    {
      forall j | t.endIdx < j < m ensures lines[j].Blank? { OneBelongs(raw, lines, j, col); }
      assert AllBlank(lines, t.endIdx + 1, m);
      OneBelongs(raw, lines, m, col);
    }
  }

  lemma OneBelongs(raw: seq<string>, lines: seq<Line>, j: nat, col: nat)
    requires Classified(raw, lines) && j < |raw|
    ensures InBlock(lines, j, col) <==> BelongsAt(raw, j, col)
    ensures lines[j].Blank? <==> IsBlank(raw[j])
  {
    assert ClassAt(raw, lines, j);
    DetailBelongs(raw[j], col);
  }

  lemma OneDetail(raw: seq<string>, lines: seq<Line>, at: nat, col: nat, details: seq<string>, i: nat)
    requires i < |details| && IsDedented(lines, at, col, details, i) && ClassAt(raw, lines, at + 1 + i)
    requires InBlock(lines, at + 1 + i, col)
    ensures DetailAt(raw, at, col, details, i)
  {
    DetailBelongs(raw[at + 1 + i], col);
  }

  lemma ReportIs(raw: seq<string>, k: nat)
    requires k < |Parse(Lines(raw), 0)|
    ensures IsReport(raw, Parse(Lines(raw), 0)[k])
  {
    LinesClassified(raw);
    var h, details := LocatedTodo(Lines(raw), k);
    TodoIsReport(raw, Lines(raw), Parse(Lines(raw), 0)[k], h, details);
  }

  /** What the lines of a block have to do with the todo. */
  ghost predicate IsBlockOf(lines: seq<Line>, t: Todo, h: Head, details: seq<string>, col: nat) {
    && col == t.indent + 6
    && t.lineIdx <= t.endIdx < |lines| && lines[t.lineIdx] == Checkbox(h)
    && t.indent == |h.indent| && t.done == IsDone(h) && t.text == h.text
    && BlockHolds(lines, t.lineIdx + 1, t.endIdx + 1, col) && BlockOver(lines, t.endIdx + 1, col)
    && |details| == t.endIdx - t.lineIdx && t.details == JoinFeeds(details)
    && forall i :: 0 <= i < |details| ==> IsDedented(lines, t.lineIdx, col, details, i)
  }

  lemma TodoIsReport(raw: seq<string>, lines: seq<Line>, t: Todo, h: Head, details: seq<string>)
    requires Classified(raw, lines) && IsBlockOf(lines, t, h, details, t.indent + 6)
    ensures IsReport(raw, t)
  {
    HeadOfBlock(raw, lines, t, h);
    ReportFrom(raw, lines, t, t.indent + 6, details);
  }

  lemma HeadOfBlock(raw: seq<string>, lines: seq<Line>, t: Todo, h: Head)
    requires Classified(raw, lines) && t.lineIdx < |lines| && lines[t.lineIdx] == Checkbox(h)
    requires t.indent == |h.indent| && t.done == IsDone(h) && t.text == h.text
    ensures HeadRead(raw[t.lineIdx], t)
  {
    assert ClassAt(raw, lines, t.lineIdx);
    HeadIsRead(raw[t.lineIdx], h, t);
  }

  lemma ReportFrom(raw: seq<string>, lines: seq<Line>, t: Todo, col: nat, details: seq<string>)
    requires Classified(raw, lines) && t.lineIdx <= t.endIdx < |raw| && HeadRead(raw[t.lineIdx], t)
    requires col == t.indent + 6
    requires BlockHolds(lines, t.lineIdx + 1, t.endIdx + 1, col) && BlockOver(lines, t.endIdx + 1, col)
    requires |details| == t.endIdx - t.lineIdx && t.details == JoinFeeds(details)
    requires forall i :: 0 <= i < |details| ==> IsDedented(lines, t.lineIdx, col, details, i)
    ensures IsReport(raw, t)
  {
    DetailsAreRead(raw, lines, t, col, details);
    BlockIsRead(raw, lines, t, col);
  }

  lemma LocatedTodo(lines: seq<Line>, k: nat) returns (h: Head, details: seq<string>)
    requires k < |Parse(lines, 0)|
    ensures IsBlockOf(lines, Parse(lines, 0)[k], h, details, Column(h))
  {
    var at, end := Locate(lines, k);
    h := lines[at].head;
    details := LocatedBlock(lines, at, end, Parse(lines, 0)[k], h);
  }

  lemma LocatedBlock(lines: seq<Line>, at: nat, end: nat, t: Todo, h: Head) returns (details: seq<string>)
    requires at < end <= |lines| && lines[at] == Checkbox(h) && t == TodoOf(lines[at..end], at)
    requires Extent(lines[at..end][1..], Column(h)) == end - at - 1 && Extent(lines[end..], Column(h)) == 0
    ensures IsBlockOf(lines, t, h, details, Column(h))
  {
    var block := TodoFields(lines, at, end, t);
    details := TodoBlock(lines, at, end, Column(h), block);
  }

  lemma TodoFields(lines: seq<Line>, at: nat, end: nat, t: Todo) returns (block: seq<Line>)
    requires at < end <= |lines| && lines[at].Checkbox? && t == TodoOf(lines[at..end], at)
    ensures block == lines[at..end][1..] == lines[at + 1..end]
    ensures t.indent == |lines[at].head.indent| && t.done == IsDone(lines[at].head) && t.text == lines[at].head.text
    ensures t.indent + 6 == Column(lines[at].head) && t.endIdx == end - 1 && t.lineIdx == at
    ensures t.details == JoinFeeds(Dedent(block, Column(lines[at].head)))
  {
    assert lines[at..end][0] == lines[at];
    block := lines[at + 1..end];
    assert lines[at..end][1..] == block;
  }

  lemma TodoBlock(lines: seq<Line>, at: nat, end: nat, col: nat, block: seq<Line>) returns (details: seq<string>)
    requires at < end <= |lines| && block == lines[at + 1..end]
    requires Extent(block, col) == end - at - 1 && Extent(lines[end..], col) == 0
    ensures BlockHolds(lines, at + 1, end, col) && BlockOver(lines, end, col)
    ensures details == Dedent(block, col) && |details| == end - at - 1
    ensures forall i :: 0 <= i < |details| ==> IsDedented(lines, at, col, details, i)
  {
    ExtentHolds(lines, at + 1, end, col, block);
    ExtentOver(lines, end, col, lines[end..]);
    details := Dedent(block, col);
    DedentedLines(lines, at, end, col, details);
  }

  /** Every checkbox line starts a todo. */
  lemma {:induction false} CheckboxReported(lines: seq<Line>, base: nat, l: nat) returns (k: nat)
    requires l < |lines| && lines[l].Checkbox?
    ensures k < |Parse(lines, base)| && Parse(lines, base)[k].lineIdx == base + l
    decreases |lines|
  {
    if !lines[0].Checkbox? {
      k := CheckboxReported(lines[1..], base + 1, l - 1);
    } else if l == 0 {
      k := 0;
      ParseAtCheckbox(lines, base, 0);
    } else {
      var n := BlockSize(lines);
      if l < n { InsideBlock(lines, l); }
      var rest := lines[n..];
      assert rest[l - n] == lines[l];
      var later := CheckboxReported(rest, base + n, l - n);
      ParseLater(lines, base, later);
      k := later + 1;
    }
  }

  lemma ParseLater(lines: seq<Line>, base: nat, j: nat)
    requires lines != [] && lines[0].Checkbox?
    requires j < |Parse(lines[BlockSize(lines)..], base + BlockSize(lines))|
    ensures j + 1 < |Parse(lines, base)|
    ensures Parse(lines, base)[j + 1] == Parse(lines[BlockSize(lines)..], base + BlockSize(lines))[j]
  {
    ParseAtCheckbox(lines, base, j + 1);
  }

  lemma InsideBlock(lines: seq<Line>, l: nat)
    requires lines != [] && lines[0].Checkbox? && 0 < l < BlockSize(lines)
    ensures !lines[l].Checkbox?
  {
    ExtentAll(lines[1..], Column(lines[0].head), l - 1);
  }

  /** Main result: the todos reported are the checkbox lines, all of them, in file order, each with the box, the indent
      and the text of its line and the details below it. */
  lemma ReportedExactly(text: string)
    ensures var (raw, todos) := (SplitLines(text), ParseText(text));
      && (forall k :: 0 <= k < |todos| ==> IsReport(raw, todos[k]))
      && (forall l :: 0 <= l < |raw| ==> (IsBox(raw[l]) <==> exists k :: 0 <= k < |todos| && todos[k].lineIdx == l))
      && forall j, k :: 0 <= j < k < |todos| ==> todos[j].endIdx < todos[k].lineIdx
  {
    var raw, todos := SplitLines(text), ParseText(text);
    ParseInOrder(Lines(raw), 0);
    forall k | 0 <= k < |todos| ensures IsReport(raw, todos[k]) { ReportIs(raw, k); }
    forall l | 0 <= l < |raw|
      ensures IsBox(raw[l]) <==> exists k :: 0 <= k < |todos| && todos[k].lineIdx == l
    {
      LineAt(raw, l);
      DetailBelongs(raw[l], 0);
      CheckboxesAreTodos(Lines(raw), l);
    }
  }

  lemma CheckboxesAreTodos(lines: seq<Line>, l: nat)
    requires l < |lines|
    ensures lines[l].Checkbox? <==> exists k :: 0 <= k < |Parse(lines, 0)| && Parse(lines, 0)[k].lineIdx == l
  {
    if lines[l].Checkbox? { var k := CheckboxReported(lines, 0, l); }
    if k :| 0 <= k < |Parse(lines, 0)| && Parse(lines, 0)[k].lineIdx == l {
      var at := TodosAreCheckboxes(lines, 0, k);
    }
  }
}
