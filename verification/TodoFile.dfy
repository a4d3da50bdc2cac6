/**
  TODO.md as the routes keep it: one file that each route reads, rewrites by line spans, and writes back.
*/
module TodoFile {
  import opened Optional
  import opened Sequences
  import opened TextLines
  import opened TodoParser
  import opened TodoRender
  import opened TodoEdits
  import opened TodoMoves
  import opened TodoReorder

  datatype Reply = Ok(lineIdx: nat) | TextRequired | FileNotFound | NotATodo

  class File {
    var content: Option<string>
    const projectName: string

    constructor (name: string, initial: Option<string>)
      ensures content == initial && projectName == name
    {
      projectName := name;
      content := initial;
    }

    /** What an add starts from when there is no file yet. */
    function Existing(): string
      reads this
    {
      match content
      case Some(text) => text
      case None => "# " + projectName + " — TODO\n\n"
    }

    method ListTodos() returns (todos: seq<Todo>)
      ensures todos == if content.Some? then ParseText(content.value) else []
    {
      todos := [];
      if content.Some? {
        todos := ParseTodos(content.value);
      }
    }

    /** Appends a todo; the reply names the line of its checkbox. */
    method AddTodo(text: string, details: Option<string>) returns (r: Reply)
      modifies this`content
      ensures IsBlank(text) ==> r == TextRequired && content == old(content)
      ensures !IsBlank(text) ==>
        var body := if details.Some? then details.value else "";
        && content == Some(AddText(old(Existing()), Strip(text), body))
        && r == Ok(Added(old(Existing()), Strip(text), body).lineIdx)
        && (ParseText(content.value) == ParseText(old(Existing())) + [Added(old(Existing()), Strip(text), body)] <==>
            Clean("", Strip(text), BodyLines(body)))
    {
      var title := Strip(text);
      StripTrims(text);
      if title == "" {
        return TextRequired;
      }
      var existing := Existing();
      if !(existing != "" && existing[|existing| - 1] == '\n') {
        existing := existing + "\n";
      }
      var lineIdx := |SplitLines(existing)|;
      var body := if details.Some? then details.value else "";
      var block := RenderBlock("", '-', ' ', title, body);
      AddFrame(old(Existing()), title, body);
      content := Some(existing + JoinLines(block));
      r := Ok(lineIdx);
    }

    /** First todo on a line, or None. */
    method Find(todos: seq<Todo>, lineIdx: int) returns (t: Option<Todo>)
      ensures t == FindTodo(todos, lineIdx)
    {
      for k := 0 to |todos|
        invariant FindTodo(todos, lineIdx) == FindTodo(todos[k..], lineIdx)
      {
        assert todos[k..][1..] == todos[k + 1..];
        if todos[k].lineIdx == lineIdx {
          return Some(todos[k]);
        }
      }
      assert todos[|todos|..] == [];
      t := None;
    }

    method UpdateTodo(lineIdx: int, e: Edit) returns (r: Reply)
      modifies this`content
      ensures old(content) == None ==> r == FileNotFound
      ensures r == FileNotFound ==> old(content) == None
      ensures r == NotATodo <==> old(content).Some? && UpdateText(old(content).value, lineIdx, e) == None
      ensures content == if r.Ok? then UpdateText(old(content).value, lineIdx, e) else old(content)
    {
      if content.None? {
        return FileNotFound;
      }
      var lines := SplitLines(content.value);
      var todos := ParseTodos(content.value);
      var found := Find(todos, lineIdx);
      if found.None? {
        return NotATodo;
      }
      var t := found.value;
      FoundUpdated(content.value, lineIdx, t, e);
      var head := Lines(lines)[t.lineIdx].head;
      var check := if NewDone(t, e) then 'x' else ' ';
      var block := RenderBlock(head.indent, head.marker, check, NewText(t, e), NewDetails(t, e));
      lines := lines[..t.lineIdx] + block + lines[t.endIdx + 1..];
      content := Some(JoinLines(lines));
      r := Ok(t.lineIdx);
    }

    method DeleteTodo(lineIdx: int) returns (r: Reply)
      modifies this`content
      ensures r == FileNotFound <==> old(content) == None
      ensures r == NotATodo <==> old(content).Some? && DeleteText(old(content).value, lineIdx) == None
      ensures content == if r.Ok? then DeleteText(old(content).value, lineIdx) else old(content)
    {
      if content.None? {
        return FileNotFound;
      }
      var lines := SplitLines(content.value);
      var todos := ParseTodos(content.value);
      var found := Find(todos, lineIdx);
      if found.None? {
        return NotATodo;
      }
      var t := found.value;
      FoundReported(content.value, lineIdx, t);
      lines := lines[..t.lineIdx] + lines[t.endIdx + 1..];
      content := Some(JoinLines(lines));
      r := Ok(t.lineIdx);
    }

    /** Reorders the blocks; `todos` is what the parser reports afterwards. */
    method ReorderTodos(order: seq<int>) returns (r: Reply, todos: seq<Todo>)
      modifies this`content
      ensures old(content) == None ==> r == FileNotFound && content == None
      ensures old(content).Some? ==>
        && r.Ok? && content == Some(ReorderText(old(content).value, order))
        && todos == ParseText(content.value)
        && SameTodos(todos, Ordered(ParseText(old(content).value), order))
        && multiset(Ordered(ParseText(old(content).value), order)) == multiset(ParseText(old(content).value))
    {
      todos := [];
      if content.None? {
        return FileNotFound, todos;
      }
      ReorderFrame(content.value, order);
      var lines := SplitLines(content.value);
      todos := ParseTodos(content.value);
      if todos == [] {
        return Ok(0), todos;
      }
      OrderedReported(Lines(lines), order);
      ParseInOrder(Lines(lines), 0);
      var ordered := OrderTodos(todos, order);
      var rewritten := CopyBlocks(lines, todos[0].lineIdx, ordered);
      content := Some(JoinLines(rewritten));
      todos := ParseTodos(content.value);
      r := Ok(0);
    }

    /** The todos asked for, each once, then the others. */
    method OrderTodos(todos: seq<Todo>, order: seq<int>) returns (ordered: seq<Todo>)
      ensures ordered == Ordered(todos, order)
    {
      var seen: set<int> := {};
      ordered := [];
      for k := 0 to |order|
        invariant ordered == Requested(todos, order[..k])
        invariant forall i :: i in seen <==> i in order[..k] && FindTodo(todos, i).Some?
      {
        assert order[..k + 1][..k] == order[..k];
        assert forall i :: i in order[..k + 1] <==> i in order[..k] || i == order[k];
        var t := Find(todos, order[k]);
        if t.Some? && order[k] !in seen {
          ordered := ordered + [t.value];
          seen := seen + {order[k]};
        }
      }
      assert order[..|order|] == order;
      ghost var requested := ordered;
      for k := 0 to |todos|
        invariant ordered + Unmentioned(todos[k..], order) == requested + Unmentioned(todos, order)
      {
        assert todos[k..][1..] == todos[k + 1..];
        KnownLine(todos, k);
        if todos[k].lineIdx !in seen {
          ordered := ordered + [todos[k]];
        }
      }
      assert todos[|todos|..] == [];
    }

    method CopyBlocks(lines: seq<string>, preamble: nat, ordered: seq<Todo>) returns (out: seq<string>)
      requires preamble <= |lines| && WithinFile(ordered, |lines|)
      ensures out == lines[..preamble] + Blocks(lines, ordered)
    {
      out := lines[..preamble];
      for k := 0 to |ordered|
        invariant WithinFile(ordered[k..], |lines|)
        invariant out + Blocks(lines, ordered[k..]) == lines[..preamble] + Blocks(lines, ordered)
      {
        assert ordered[k] in ordered && ordered[k..][1..] == ordered[k + 1..];
        var block := lines[ordered[k].lineIdx..ordered[k].endIdx + 1];
        Regroup(out, block, Blocks(lines, ordered[k + 1..]));
        out := out + block;
      }
      assert ordered[|ordered|..] == [];
    }
  }

  lemma KnownLine(todos: seq<Todo>, k: nat)
    requires k < |todos|
    ensures FindTodo(todos, todos[k].lineIdx).Some?
  {
    FindTodoFinds(todos, todos[k].lineIdx);
  }

  /** A todo found by its line stands there, on a checkbox line. */
  lemma FoundUpdated(text: string, lineIdx: int, t: Todo, e: Edit)
    requires FindTodo(ParseText(text), lineIdx) == Some(t)
    ensures var (raw, lines) := (SplitLines(text), Lines(SplitLines(text)));
      && t.lineIdx <= t.endIdx < |raw| && lines[t.lineIdx].Checkbox?
      && UpdateText(text, lineIdx, e) ==
         Some(JoinLines(raw[..t.lineIdx] + UpdatedBlock(lines[t.lineIdx].head, t, e) + raw[t.endIdx + 1..]))
  {
    FoundReported(text, lineIdx, t);
  }

  lemma FoundReported(text: string, lineIdx: int, t: Todo)
    requires FindTodo(ParseText(text), lineIdx) == Some(t)
    ensures t.lineIdx <= t.endIdx < |SplitLines(text)| && Lines(SplitLines(text))[t.lineIdx].Checkbox?
  {
    FindTodoFinds(ParseText(text), lineIdx);
    var k :| 0 <= k < |ParseText(text)| && ParseText(text)[k] == t;
    var h := ReportedTodo(Lines(SplitLines(text)), k);
  }
}
