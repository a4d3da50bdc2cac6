/** What is printed of details. */
module TodoBody {
  import opened Sequences
  import opened TextLines
  import opened TodoRender

  // What is printed of a todo's details, told from the lines given: each without its trailing white space, from the
  // first that is not empty to the last that is not blank.

  // ----- trimming -----

  /** The line without the white space at its end. */
  ghost predicate RightTrim(a: string, line: string) {
    (a == "" || !IsSpace(a[|a| - 1])) && exists tail :: line == a + tail && IsBlank(tail)
  }

  lemma {:induction false} RStripOnly(a: string, tail: string)
    requires IsBlank(tail) && (a == "" || !IsSpace(a[|a| - 1]))
    ensures RStrip(a + tail) == a
    decreases |tail|
  {
    var line := a + tail;
    if tail == "" {
      assert line == a;
    } else {
      var n := |tail| - 1;
      assert line[..|line| - 1] == a + tail[..n];
      assert line[|line| - 1] == tail[n];
      RStripOnly(a, tail[..n]);
    }
  }

  lemma RightTrimIs(a: string, line: string)
    ensures RightTrim(a, line) <==> a == RStrip(line)
  {
    if RightTrim(a, line) {
      var tail :| line == a + tail && IsBlank(tail);
      RStripOnly(a, tail);
    }
    if a == RStrip(line) {
      RStripIs(line);
      var tail := line[|a|..];
      assert line == a + tail && IsBlank(tail);
    }
  }

  lemma BlankTrims(line: string)
    ensures IsBlank(line) <==> RStrip(line) == ""
  {
    RStripIs(line);
    if IsBlank(line) { RStripOnly("", line); assert "" + line == line; }
  }

  lemma TrimCons(c: char, s: string)
    ensures RStrip([c] + s) == if RStrip(s) == "" then RStrip([c]) else [c] + RStrip(s)
  {
    RStripIs(s);
    var tail := s[|RStrip(s)|..];
    assert s == RStrip(s) + tail && IsBlank(tail);
    if RStrip(s) == "" {
      TrimBlankTail([c], s);
    } else {
      var a := [c] + RStrip(s);
      assert [c] + s == a + tail && a[|a| - 1] == RStrip(s)[|RStrip(s)| - 1];
      RStripOnly(a, tail);
    }
  }

  lemma TrimBlankTail(a: string, tail: string)
    requires IsBlank(tail)
    ensures RStrip(a + tail) == RStrip(a)
  {
    RStripIs(a);
    var more := a[|RStrip(a)|..];
    assert a == RStrip(a) + more;
    Regroup(RStrip(a), more, tail);
    BlankConcat(more, tail);
    RStripOnly(RStrip(a), more + tail);
  }

  // ----- carriage returns before line feeds are trimmed anyway -----

  lemma SplitCons(c: char, s: string)
    ensures SplitFeeds([c] + s) ==
            if c == '\n' then [""] + SplitFeeds(s) else [[c] + SplitFeeds(s)[0]] + SplitFeeds(s)[1..]
  {
    var t := [c] + s;
    assert t[1..] == s;
    if c == '\n' {
      assert FeedAt(t) == 0 && t[..0] == "";
    } else {
      SplitConsLine(c, s, t);
    }
  }

  lemma SplitConsLine(c: char, s: string, t: string)
    requires c != '\n' && t == [c] + s
    ensures SplitFeeds(t) == [[c] + SplitFeeds(s)[0]] + SplitFeeds(s)[1..]
  {
    var n := FeedAt(s);
    assert t[1..] == s && FeedAt(t) == 1 + n;
    if n == |s| {
      assert SplitFeeds(s)[1..] == [];
    } else {
      assert t[..1 + n] == [c] + s[..n] && t[1 + n + 1..] == s[n + 1..];
    }
  }

  lemma {:induction false} TrimAllAt(lines: seq<string>, others: seq<string>)
    ensures RStripAll(lines + others) == RStripAll(lines) + RStripAll(others)
  {
    if lines == [] {
      assert lines + others == others;
    } else {
      assert (lines + others)[1..] == lines[1..] + others;
      TrimAllAt(lines[1..], others);
    }
  }

  lemma TrimFirst(h: string, t: seq<string>)
    ensures RStripAll([h] + t) == [RStrip(h)] + RStripAll(t)
  {
    assert ([h] + t)[1..] == t;
  }

  /** Trimmed line by line, a text is the same with its CRLF line ends and with plain ones. */
  lemma {:induction false} SameTrimmed(s: string)
    ensures RStripAll(SplitFeeds(UnixFeeds(s))) == RStripAll(SplitFeeds(s))
    decreases |s|
  {
    if s != "" {
      if |s| >= 2 && s[0] == '\r' && s[1] == '\n' {
        SameTrimmed(s[2..]);
        TrimmedCrLf(s, s[2..]);
      } else {
        SameTrimmed(s[1..]);
        TrimmedChar(s[0], UnixFeeds(s[1..]), s[1..]);
        assert [s[0]] + s[1..] == s;
      }
    }
  }

  lemma TrimmedCrLf(s: string, r: string)
    requires s == ['\r', '\n'] + r && RStripAll(SplitFeeds(UnixFeeds(r))) == RStripAll(SplitFeeds(r))
    ensures RStripAll(SplitFeeds("\n" + UnixFeeds(r))) == RStripAll(SplitFeeds(s))
  {
    ReturnLine(s, r);
    FeedLine(UnixFeeds(r));
    BothBlank("", SplitFeeds(UnixFeeds(r)), ['\r'], SplitFeeds(r));
  }

  lemma FeedLine(u: string)
    ensures SplitFeeds("\n" + u) == [""] + SplitFeeds(u)
  {
    SplitCons('\n', u);
  }

  lemma ReturnLine(s: string, r: string)
    requires s == ['\r', '\n'] + r
    ensures SplitFeeds(s) == [['\r']] + SplitFeeds(r)
  {
    var u := ['\n'] + r;
    assert s == ['\r'] + u;
    SplitCons('\n', r);
    SplitCons('\r', u);
    ReturnFirst(SplitFeeds(u), SplitFeeds(r));
  }

  lemma ReturnFirst(lines: seq<string>, rest: seq<string>)
    requires lines == [""] + rest
    ensures [['\r'] + lines[0]] + lines[1..] == [['\r']] + rest
  {
    assert lines[1..] == rest && ['\r'] + "" == ['\r'];
  }

  lemma BothBlank(a: string, xs: seq<string>, b: string, ys: seq<string>)
    requires IsBlank(a) && IsBlank(b) && RStripAll(xs) == RStripAll(ys)
    ensures RStripAll([a] + xs) == RStripAll([b] + ys)
  {
    TrimFirst(a, xs);
    TrimFirst(b, ys);
    BlankTrims(a);
    BlankTrims(b);
  }

  lemma TrimmedChar(c: char, u: string, r: string)
    requires RStripAll(SplitFeeds(u)) == RStripAll(SplitFeeds(r))
    ensures RStripAll(SplitFeeds([c] + u)) == RStripAll(SplitFeeds([c] + r))
  {
    SplitCons(c, u);
    SplitCons(c, r);
    var a, b := SplitFeeds(u), SplitFeeds(r);
    if c == '\n' {
      TrimFirst("", a);
      TrimFirst("", b);
    } else {
      TrimFirst([c] + a[0], a[1..]);
      TrimFirst([c] + b[0], b[1..]);
      TrimFirst(a[0], a[1..]);
      TrimFirst(b[0], b[1..]);
      assert [a[0]] + a[1..] == a && [b[0]] + b[1..] == b;
      SameFirst(RStrip(a[0]), RStripAll(a[1..]), RStrip(b[0]), RStripAll(b[1..]));
      TrimCons(c, a[0]);
      TrimCons(c, b[0]);
    }
  }

  lemma SameFirst(x: string, xs: seq<string>, y: string, ys: seq<string>)
    requires [x] + xs == [y] + ys
    ensures x == y && xs == ys
  {
    assert ([x] + xs)[0] == x && ([y] + ys)[0] == y && ([x] + xs)[1..] == xs && ([y] + ys)[1..] == ys;
  }

  // ----- blank ends -----

  /** Dropping leading line feeds drops that many empty lines. */
  lemma {:induction false} LeadingFeeds(s: string) returns (k: nat)
    ensures k < |SplitFeeds(s)| && SplitFeeds(LStripFeeds(s)) == SplitFeeds(s)[k..]
    ensures forall j :: 0 <= j < k ==> SplitFeeds(s)[j] == ""
    ensures LStripFeeds(s) == "" || LStripFeeds(s)[0] != '\n'
  {
    k := 0;
    if s != "" && s[0] == '\n' {
      var k' := LeadingFeeds(s[1..]);
      assert ['\n'] + s[1..] == s;
      SplitCons('\n', s[1..]);
      k := k' + 1;
    }
  }

  lemma {:induction false} SplitEndFeed(s: string)
    ensures SplitFeeds(s + "\n") == SplitFeeds(s) + [""]
    decreases |s|
  {
    var t := s + "\n";
    if s == "" {
      assert t == ['\n'] + "";
      SplitCons('\n', "");
    } else {
      assert t == [s[0]] + (s[1..] + "\n") && s == [s[0]] + s[1..];
      SplitEndFeed(s[1..]);
      EndFeedCons(s[0], s[1..], s[1..] + "\n");
    }
  }

  lemma EndFeedCons(c: char, r: string, u: string)
    requires SplitFeeds(u) == SplitFeeds(r) + [""]
    ensures SplitFeeds([c] + u) == SplitFeeds([c] + r) + [""]
  {
    SplitCons(c, u);
    SplitCons(c, r);
    OneMore([""], SplitFeeds(r), SplitFeeds(u));
    OneMore([[c] + SplitFeeds(r)[0]], SplitFeeds(r)[1..], SplitFeeds(u)[1..]);
  }

  lemma OneMore(a: seq<string>, b: seq<string>, c: seq<string>)
    ensures c == b + [""] ==> a + c == (a + b) + [""]
  {
  }

  /** Dropping line feeds at the end drops that many empty lines. */
  lemma {:induction false} TrailingFeeds(s: string) returns (n: nat)
    ensures 0 < n <= |SplitFeeds(s)| && SplitFeeds(RStripFeeds(s)) == SplitFeeds(s)[..n]
    ensures forall j :: n <= j < |SplitFeeds(s)| ==> SplitFeeds(s)[j] == ""
  {
    if s != "" && s[|s| - 1] == '\n' {
      var front := s[..|s| - 1];
      n := TrailingFeeds(front);
      assert front + "\n" == s;
      SplitEndFeed(front);
    } else {
      n := |SplitFeeds(s)|;
      assert SplitFeeds(s)[..n] == SplitFeeds(s);
    }
  }

  // ----- the body -----

  ghost predicate TrimmedAt(body: seq<string>, lines: seq<string>, k: nat, j: int) {
    0 <= j < |body| && k + j < |lines| && RightTrim(body[j], lines[k + j])
  }

  /** Lines k and on, right-trimmed; before them empty lines, after them blank ones. */
  ghost predicate BodyFrom(body: seq<string>, lines: seq<string>, k: nat) {
    && k + |body| <= |lines|
    && (forall j :: 0 <= j < k ==> lines[j] == "")
    && (forall j :: 0 <= j < |body| ==> TrimmedAt(body, lines, k, j))
    && (forall j :: k + |body| <= j < |lines| ==> IsBlank(lines[j]))
    && (body != [] ==> lines[k] != "" && body[|body| - 1] != "")
  }

  ghost predicate IsBodyOf(body: seq<string>, details: string) {
    exists k :: BodyFrom(body, SplitFeeds(details), k)
  }

  lemma SlicesTrimmed(lines: seq<string>, k: nat, n: nat, body: seq<string>)
    requires k <= n <= |lines| && body <= RStripAll(lines[k..n])
    ensures k + |body| <= |lines| && forall j :: 0 <= j < |body| ==> TrimmedAt(body, lines, k, j)
  {
    forall j | 0 <= j < |body| ensures TrimmedAt(body, lines, k, j) {
      RStripAt(lines[k..n], j);
      RightTrimIs(body[j], lines[k + j]);
    }
  }

  lemma BodyIsFrom(lines: seq<string>, k: nat, n: nat, body: seq<string>)
    requires k < n <= |lines| && body == DropEmptyTail(RStripAll(lines[k..n])) && lines[k] != ""
    requires (forall j :: 0 <= j < k ==> lines[j] == "") && forall j :: n <= j < |lines| ==> lines[j] == ""
    ensures BodyFrom(body, lines, k)
  {
    DropEmptyTailIs(RStripAll(lines[k..n]));
    SlicesTrimmed(lines, k, n, body);
    forall j | k + |body| <= j < |lines| ensures IsBlank(lines[j]) {
      if j < n {
        RStripAt(lines[k..n], j - k);
        BlankTrims(lines[j]);
      }
    }
  }

  /** Main result: the lines printed are these and no others. */
  lemma BodyExactly(body: seq<string>, details: string)
    ensures IsBodyOf(body, details) <==> body == BodyLines(details)
  {
    var k := BodyIs(details);
    if k' :| BodyFrom(body, SplitFeeds(details), k') {
      SameBody(body, k', BodyLines(details), k, SplitFeeds(details));
    }
  }

  lemma BodyIs(details: string) returns (k: nat)
    ensures BodyFrom(BodyLines(details), SplitFeeds(details), k)
  {
    var lines, front := SplitFeeds(details), LStripFeeds(details);
    k := LeadingFeeds(details);
    var m := TrailingFeeds(front);
    SameTrimmed(RStripFeeds(front));
    if RStripFeeds(front) == "" {
      OnlyFeedsDropped(front);
      assert SplitFeeds("") == [""];
      NoBody(lines, k);
    } else {
      FirstNotEmpty(front);
      InnerLines(lines, k, m, SplitFeeds(front));
      BodyIsFrom(lines, k, k + m, BodyLines(details));
    }
  }

  lemma NoBody(lines: seq<string>, k: nat)
    requires k < |lines| && lines[k..] == [""] && forall j :: 0 <= j < k ==> lines[j] == ""
    ensures BodyFrom([], lines, k)
  {
    assert forall j :: k <= j < |lines| ==> lines[j] == lines[k..][j - k];
  }

  lemma InnerLines(lines: seq<string>, k: nat, m: nat, inner: seq<string>)
    requires k < |lines| && inner == lines[k..] && 0 < m <= |inner| && inner[0] != ""
    requires forall j :: m <= j < |inner| ==> inner[j] == ""
    ensures inner[..m] == lines[k..k + m] && lines[k] != ""
    ensures forall j :: k + m <= j < |lines| ==> lines[j] == ""
  {
    forall j | k + m <= j < |lines| ensures lines[j] == "" { assert lines[j] == inner[j - k]; }
  }

  lemma {:induction false} OnlyFeedsDropped(s: string)
    requires RStripFeeds(s) == "" && (s == "" || s[0] != '\n')
    ensures s == ""
  {
    if s != "" {
      if s[|s| - 1] == '\n' { OnlyFeedsDropped(s[..|s| - 1]); }
    }
  }

  lemma FirstNotEmpty(s: string)
    requires s != "" && s[0] != '\n'
    ensures SplitFeeds(s)[0] != ""
  {
    assert [s[0]] + s[1..] == s;
    SplitCons(s[0], s[1..]);
  }

  lemma SameBody(a: seq<string>, k: nat, b: seq<string>, l: nat, lines: seq<string>)
    requires BodyFrom(a, lines, k) && BodyFrom(b, lines, l)
    ensures a == b
  {
    if a != [] { LastStands(a, k, b, l, lines); }
    if b != [] { LastStands(b, l, a, k, lines); }
    if a != [] && b != [] {
      assert k == l;
      forall j | 0 <= j < |a| ensures a[j] == b[j] {
        assert TrimmedAt(a, lines, k, j) && TrimmedAt(b, lines, k, j);
        RightTrimIs(a[j], lines[k + j]);
        RightTrimIs(b[j], lines[k + j]);
      }
    }
  }

  lemma LastStands(a: seq<string>, k: nat, b: seq<string>, l: nat, lines: seq<string>)
    requires BodyFrom(a, lines, k) && BodyFrom(b, lines, l) && a != []
    ensures b != [] && k + |a| <= l + |b| && l <= k
  {
    var n := |a| - 1;
    assert TrimmedAt(a, lines, k, n);
    RightTrimIs(a[n], lines[k + n]);
    BlankTrims(lines[k + n]);
    assert lines[k + n] != "";
  }
}
