/**
  Python's view of text that the TODO.md routes rely on: white space, line boundaries, `splitlines`,
  `split`, `join`, `strip` and `rstrip`.
*/
module TextLines {
  import opened Sequences

  /** str.isspace for one character; also what `\s` matches. */
  predicate IsSpace(c: char) {
    var n := c as int;
    9 <= n <= 13 || 28 <= n <= 32 || n == 0x85 || n == 0xA0 || n == 0x1680 || 0x2000 <= n <= 0x200A ||
    n == 0x2028 || n == 0x2029 || n == 0x202F || n == 0x205F || n == 0x3000
  }

  /** The line boundaries of str.splitlines. */
  predicate IsBreak(c: char) {
    var n := c as int;
    10 <= n <= 13 || 28 <= n <= 30 || n == 0x85 || n == 0x2028 || n == 0x2029
  }

  predicate BreakFree(s: string) {
    forall k | 0 <= k < |s| :: !IsBreak(s[k])
  }

  predicate AllBreakFree(lines: seq<string>) {
    forall k | 0 <= k < |lines| :: BreakFree(lines[k])
  }

  predicate IsBlank(s: string) {
    forall k | 0 <= k < |s| :: IsSpace(s[k])
  }

  // ----- splitlines and the text written back -----

  function LineEnd(t: string): (n: nat)
    ensures n <= |t|
  {
    if t == "" || IsBreak(t[0]) then 0 else 1 + LineEnd(t[1..])
  }

  lemma {:induction false} LineEndStops(t: string)
    ensures forall k :: 0 <= k < LineEnd(t) ==> !IsBreak(t[k])
    ensures LineEnd(t) < |t| ==> IsBreak(t[LineEnd(t)])
  {
    if t != "" && !IsBreak(t[0]) {
      LineEndStops(t[1..]);
    }
  }

  /** A carriage return followed by a line feed is one boundary. */
  function BreakSize(t: string, n: nat): nat
    requires n < |t|
  {
    if t[n] == '\r' && n + 1 < |t| && t[n + 1] == '\n' then 2 else 1
  }

  function SplitLines(t: string): seq<string>
    decreases |t|
  {
    if t == "" then []
    else
      var n := LineEnd(t);
      if n == |t| then [t] else [t[..n]] + SplitLines(t[n + BreakSize(t, n)..])
  }

  /** What the routes write: every line followed by a line feed. */
  function JoinLines(lines: seq<string>): string {
    if lines == [] then "" else lines[0] + "\n" + JoinLines(lines[1..])
  }

  predicate EndsLine(t: string) {
    t != "" && t[|t| - 1] == '\n'
  }

  lemma LineEndIs(t: string, n: nat)
    requires n <= |t| && (forall k :: 0 <= k < n ==> !IsBreak(t[k])) && (n < |t| ==> IsBreak(t[n]))
    ensures LineEnd(t) == n
  {
    LineEndStops(t);
  }

  lemma {:induction false} SplitIsBreakFree(t: string)
    ensures AllBreakFree(SplitLines(t))
    decreases |t|
  {
    if t != "" {
      var n := LineEnd(t);
      LineEndStops(t);
      if n < |t| {
        SplitIsBreakFree(t[n + BreakSize(t, n)..]);
      }
    }
  }

  /** The first line of `t` and what follows it, whatever is appended to `t`. */
  lemma SplitStep(t: string, u: string) returns (line: string, rest: string)
    requires LineEnd(t) < |t| && (LineEnd(t) + 1 < |t| || t[LineEnd(t)] != '\r')
    ensures |rest| < |t| && (EndsLine(t) ==> rest == "" || EndsLine(rest))
    ensures SplitLines(t) == [line] + SplitLines(rest)
    ensures SplitLines(t + u) == [line] + SplitLines(rest + u)
  {
    var n := LineEnd(t);
    var b := BreakSize(t, n);
    line, rest := t[..n], t[n + b..];
    SameEnd(t, u, n);
    CutConcat(t, u, n);
    CutConcat(t, u, n + b);
    EndsInRest(t, n + b);
    SplitAt(t, n, line, rest);
    SplitAt(t + u, n, line, rest + u);
  }

  /** More text behind a line that is ended, and not by the text's last return, changes neither. */
  lemma SameEnd(t: string, u: string, n: nat)
    requires n == LineEnd(t) < |t| && (n + 1 < |t| || t[n] != '\r')
    ensures LineEnd(t + u) == n && BreakSize(t + u, n) == BreakSize(t, n) && n + BreakSize(t, n) <= |t|
  {
    LineEndStops(t);
    assert forall k :: 0 <= k < |t| ==> (t + u)[k] == t[k];
    LineEndIs(t + u, n);
  }

  lemma SplitAt(t: string, n: nat, line: string, rest: string)
    requires n == LineEnd(t) < |t| && line == t[..n] && n + BreakSize(t, n) <= |t| && rest == t[n + BreakSize(t, n)..]
    ensures SplitLines(t) == [line] + SplitLines(rest)
  {
  }

  lemma EndsInRest(t: string, k: nat)
    requires k <= |t|
    ensures EndsLine(t) ==> t[k..] == "" || EndsLine(t[k..])
  {
  }

  lemma EndedLineHasEnd(t: string)
    requires EndsLine(t)
    ensures LineEnd(t) < |t| && (LineEnd(t) + 1 < |t| || t[LineEnd(t)] != '\r')
  {
    LineEndStops(t);
    assert IsBreak(t[|t| - 1]);
  }

  /** After a text that ends a line, splitting starts afresh. */
  lemma {:induction false} SplitConcat(t: string, u: string)
    requires t == "" || EndsLine(t)
    ensures SplitLines(t + u) == SplitLines(t) + SplitLines(u)
    decreases |t|
  {
    if t == "" {
      assert t + u == u;
    } else {
      EndedLineHasEnd(t);
      var line, rest := SplitStep(t, u);
      SplitConcat(rest, u);
      Regroup([line], SplitLines(rest), SplitLines(u));
    }
  }

  /** What ends a line before `rest`: a line feed after a carriage return, any one boundary, or the end of the text. */
  predicate Terminator(end: string, rest: string) {
    || end == "\r\n"
    || (|end| == 1 && IsBreak(end[0]) && !(end == "\r" && rest != "" && rest[0] == '\n'))
    || (end == "" && rest == "")
  }

  predicate FirstLine(t: string, line: string, end: string, rest: string) {
    t == line + end + rest && BreakFree(line) && Terminator(end, rest) && line + end != ""
  }

  /** Lines without boundaries, each with its terminator, make up the text. */
  ghost predicate AreLines(t: string, lines: seq<string>)
    decreases |lines|
  {
    if lines == [] then t == ""
    else exists end, rest :: FirstLine(t, lines[0], end, rest) && AreLines(rest, lines[1..])
  }

  lemma FirstLineIs(t: string, line: string, end: string, rest: string)
    requires FirstLine(t, line, end, rest)
    ensures t != "" && LineEnd(t) == |line| && t[..|line|] == line
    ensures if end == "" then |line| == |t| else |line| < |t| && t[|line| + BreakSize(t, |line|)..] == rest
  {
    var n := |line|;
    assert forall k :: 0 <= k < n ==> t[k] == line[k];
    if end != "" {
      assert t[n] == end[0] && t[n..] == end + rest;
      if n + 1 < |t| { assert t[n + 1] == (end + rest)[1]; }
      assert IsBreak(end[0]);
    }
    LineEndIs(t, n);
  }

  lemma TerminatorAt(t: string, n: nat, b: nat)
    requires n < |t| && IsBreak(t[n]) && b == BreakSize(t, n)
    ensures n + b <= |t| && Terminator(t[n..n + b], t[n + b..]) && t[n..n + b] != ""
  {
    if b == 2 { assert t[n..n + b] == "\r\n"; }
  }

  lemma SplitFirst(t: string) returns (end: string, rest: string)
    requires t != ""
    ensures SplitLines(t) != [] && FirstLine(t, SplitLines(t)[0], end, rest) && SplitLines(t)[1..] == SplitLines(rest)
    ensures |rest| < |t|
  {
    var n := LineEnd(t);
    LineEndStops(t);
    if n == |t| {
      end, rest := "", "";
      assert t[..n] == t;
    } else {
      var b := BreakSize(t, n);
      end, rest := t[n..n + b], t[n + b..];
      CutThree(t, n, b);
      TerminatorAt(t, n, b);
    }
  }

  lemma SplitsAt(t: string, lines: seq<string>, end: string, rest: string)
    requires lines != [] && FirstLine(t, lines[0], end, rest) && lines[1..] == SplitLines(rest)
    ensures lines == SplitLines(t)
  {
    FirstLineIs(t, lines[0], end, rest);
    assert lines == [lines[0]] + lines[1..];
    if end == "" { assert lines[0] == t; }
  }

  /** Main result: splitting yields these lines and no others. */
  lemma {:induction false} SplitExactly(t: string, lines: seq<string>)
    ensures AreLines(t, lines) <==> lines == SplitLines(t)
    decreases |t| + |lines|
  {
    if lines != [] {
      if end, rest :| FirstLine(t, lines[0], end, rest) && AreLines(rest, lines[1..]) {
        assert |rest| <= |t|;
        SplitExactly(rest, lines[1..]);
        SplitsAt(t, lines, end, rest);
      }
      if lines == SplitLines(t) {
        var end, rest := SplitFirst(t);
        SplitExactly(rest, lines[1..]);
      }
    }
  }

  lemma SplitOneLine(line: string)
    requires BreakFree(line)
    ensures SplitLines(line + "\n") == [line]
  {
    var t := line + "\n";
    assert t[..|line|] == line;
    LineEndIs(t, |line|);
    assert t[|line| + 1..] == "";
  }

  /** Reading back what was written gives the lines that were written. */
  lemma {:induction false} SplitJoin(lines: seq<string>)
    requires AllBreakFree(lines)
    ensures SplitLines(JoinLines(lines)) == lines
  {
    if lines != [] {
      SplitOneLine(lines[0]);
      SplitConcat(lines[0] + "\n", JoinLines(lines[1..]));
      SplitJoin(lines[1..]);
    }
  }

  lemma LastReturn(t: string)
    requires t != "" && LineEnd(t) == |t| - 1 && t[|t| - 1] == '\r'
    ensures SplitLines(t + "\n") == SplitLines(t)
  {
    var tu, n := t + "\n", |t| - 1;
    LineEndStops(t);
    assert forall k :: 0 <= k < |t| ==> tu[k] == t[k];
    LineEndIs(tu, n);
    assert tu[..n] == t[..n] && tu[n + 2..] == "" && t[n + 1..] == "";
  }

  /** Terminating the last line adds at most an empty line. */
  lemma {:induction false} SplitTerminated(t: string)
    ensures SplitLines(t + "\n") == SplitLines(t) || SplitLines(t + "\n") == SplitLines(t) + [""]
    decreases |t|
  {
    var n := LineEnd(t);
    if t == "" {
      assert t + "\n" == "" + "\n";
      SplitOneLine("");
    } else if n == |t| {
      LineEndStops(t);
      SplitOneLine(t);
    } else if n + 1 == |t| && t[n] == '\r' {
      LastReturn(t);
    } else {
      var line, rest := SplitStep(t, "\n");
      SplitTerminated(rest);
      Regroup([line], SplitLines(rest), [""]);
    }
  }

  // ----- split("\n") and "\n".join -----

  function FeedAt(t: string): (n: nat)
    ensures n <= |t|
  {
    if t == "" || t[0] == '\n' then 0 else 1 + FeedAt(t[1..])
  }

  lemma {:induction false} FeedAtStops(t: string)
    ensures forall k :: 0 <= k < FeedAt(t) ==> t[k] != '\n'
    ensures FeedAt(t) < |t| ==> t[FeedAt(t)] == '\n'
  {
    if t != "" && t[0] != '\n' {
      FeedAtStops(t[1..]);
    }
  }

  function SplitFeeds(t: string): (r: seq<string>)
    ensures |r| > 0
    decreases |t|
  {
    var n := FeedAt(t);
    if n == |t| then [t] else [t[..n]] + SplitFeeds(t[n + 1..])
  }

  lemma {:induction false} SplitHasNoFeeds(t: string)
    ensures forall k :: 0 <= k < |SplitFeeds(t)| ==> '\n' !in SplitFeeds(t)[k]
    decreases |t|
  {
    var n := FeedAt(t);
    FeedAtStops(t);
    if n < |t| {
      SplitHasNoFeeds(t[n + 1..]);
    }
  }

  function JoinFeeds(lines: seq<string>): string {
    if lines == [] then ""
    else if |lines| == 1 then lines[0]
    else lines[0] + "\n" + JoinFeeds(lines[1..])
  }

  lemma FeedAtIs(t: string, n: nat)
    requires n <= |t| && (forall k :: 0 <= k < n ==> t[k] != '\n') && (n < |t| ==> t[n] == '\n')
    ensures FeedAt(t) == n
  {
    FeedAtStops(t);
  }

  lemma JoinFirst(line: string, rest: seq<string>)
    requires rest != []
    ensures JoinFeeds([line] + rest) == line + "\n" + JoinFeeds(rest)
  {
    assert ([line] + rest)[1..] == rest;
  }

  lemma {:induction false} JoinSplitFeeds(t: string)
    ensures JoinFeeds(SplitFeeds(t)) == t
    decreases |t|
  {
    var n := FeedAt(t);
    FeedAtStops(t);
    if n < |t| {
      JoinSplitFeeds(t[n + 1..]);
      JoinFirst(t[..n], SplitFeeds(t[n + 1..]));
      Whole(t, n);
    }
  }

  lemma {:induction false} SplitJoinFeeds(lines: seq<string>)
    requires lines != [] && forall k :: 0 <= k < |lines| ==> '\n' !in lines[k]
    ensures SplitFeeds(JoinFeeds(lines)) == lines
  {
    var t := JoinFeeds(lines);
    if |lines| == 1 {
      FeedAtIs(t, |t|);
    } else {
      var n := |lines[0]|;
      assert t[..n] == lines[0];
      FeedAtIs(t, n);
      assert t[n + 1..] == JoinFeeds(lines[1..]);
      SplitJoinFeeds(lines[1..]);
    }
  }

  // ----- strip -----

  function RStrip(s: string): string {
    if s == "" || !IsSpace(s[|s| - 1]) then s else RStrip(s[..|s| - 1])
  }

  lemma {:induction false} RStripIs(s: string)
    ensures RStrip(s) <= s && (RStrip(s) == "" || !IsSpace(RStrip(s)[|RStrip(s)| - 1]))
    ensures forall k :: |RStrip(s)| <= k < |s| ==> IsSpace(s[k])
  {
    if s != "" && IsSpace(s[|s| - 1]) {
      RStripIs(s[..|s| - 1]);
    }
  }

  /** The first index at or after `from` that is not white space. */
  function SkipSpace(s: string, from: nat): (n: nat)
    requires from <= |s|
    ensures from <= n <= |s|
    decreases |s| - from
  {
    if from < |s| && IsSpace(s[from]) then SkipSpace(s, from + 1) else from
  }

  lemma {:induction false} SkipSpaceStops(s: string, from: nat)
    requires from <= |s|
    ensures forall k :: from <= k < SkipSpace(s, from) ==> IsSpace(s[k])
    ensures SkipSpace(s, from) < |s| ==> !IsSpace(s[SkipSpace(s, from)])
    decreases |s| - from
  {
    if from < |s| && IsSpace(s[from]) {
      SkipSpaceStops(s, from + 1);
    }
  }

  lemma SkipSpaceIs(s: string, from: nat, n: nat)
    requires from <= n <= |s| && (forall k :: from <= k < n ==> IsSpace(s[k])) && (n < |s| ==> !IsSpace(s[n]))
    ensures SkipSpace(s, from) == n
  {
    SkipSpaceStops(s, from);
  }

  function Strip(s: string): string {
    RStrip(s[SkipSpace(s, 0)..])
  }

  /** Neither end is white space. */
  predicate Trimmed(s: string) {
    s == "" || (!IsSpace(s[0]) && !IsSpace(s[|s| - 1]))
  }

  lemma StripTrims(s: string)
    ensures Trimmed(Strip(s))
    ensures Trimmed(s) ==> Strip(s) == s
    ensures Strip(s) == "" <==> IsBlank(s)
  {
    SkipSpaceStops(s, 0);
    RStripIs(s[SkipSpace(s, 0)..]);
  }

  function LStripFeeds(s: string): string {
    if s != "" && s[0] == '\n' then LStripFeeds(s[1..]) else s
  }

  function RStripFeeds(s: string): string {
    if s != "" && s[|s| - 1] == '\n' then RStripFeeds(s[..|s| - 1]) else s
  }

  /** s.replace("\r\n", "\n") */
  function UnixFeeds(s: string): string {
    if s == "" then ""
    else if |s| >= 2 && s[0] == '\r' && s[1] == '\n' then "\n" + UnixFeeds(s[2..])
    else [s[0]] + UnixFeeds(s[1..])
  }
}
