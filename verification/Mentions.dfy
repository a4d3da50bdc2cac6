/**
  Mentions in the mobile composer: finding the token under the cursor, inserting a mention behind an invisible
  sentinel, and turning the marked text into links on send.
*/
module Mentions {
  import opened Optional

  /** U+2063 INVISIBLE SEPARATOR. */
  const SENTINEL := '\U{2063}'

  /** `\s` of JavaScript. */
  predicate IsWhite(c: char) {
    var n := c as int;
    9 <= n <= 13 || n == 32 || n == 0xA0 || n == 0x1680 || 0x2000 <= n <= 0x200A || n == 0x2028 || n == 0x2029 ||
    n == 0x202F || n == 0x205F || n == 0x3000 || n == 0xFEFF
  }

  datatype MentionType = Member | Agent | Squad | All | Issue

  datatype Marker = Marker(kind: MentionType, id: string, name: string)

  function KindName(k: MentionType): string {
    match k
    case Member => "member"
    case Agent => "agent"
    case Squad => "squad"
    case All => "all"
    case Issue => "issue"
  }

  /** The markdown link; issues drop the `@`. */
  function Link(m: Marker): string {
    "[" + (if m.kind == Issue then m.name else "@" + m.name) + "](mention://" + KindName(m.kind) + "/" + m.id + ")"
  }

  function AtName(m: Marker): string {
    "@" + m.name
  }

  // ----- the token under the cursor -----

  /** `@` at `start`, at the beginning or after white space; up to the cursor neither white space nor another `@`. */
  predicate IsToken(text: string, cursor: int, start: int) {
    && 0 <= start < cursor <= |text| && text[start] == '@'
    && (forall k | start < k < cursor :: text[k] != '@' && !IsWhite(text[k]))
    && (start > 0 ==> IsWhite(text[start - 1]))
  }

  method TokenAtCursor(text: string, cursor: int) returns (start: Option<nat>, query: string)
    ensures start.Some? ==> IsToken(text, cursor, start.value) && query == text[start.value + 1..cursor]
    ensures start.None? ==> forall s :: !IsToken(text, cursor, s)
  {
    query := "";
    if cursor < 1 || cursor > |text| {
      return None, query;
    }
    assert !IsWhite('@') && !IsWhite(SENTINEL);
    var i := cursor - 1;
    while i >= 0 && text[i] != '@'
      invariant -1 <= i < cursor
      invariant forall k :: i < k < cursor ==> text[k] != '@' && !IsWhite(text[k])
    {
      if IsWhite(text[i]) {
        return None, query;
      }
      i := i - 1;
    }
    if i < 0 {
      return None, query;
    }
    if i > 0 && text[i - 1] == SENTINEL {
      return None, query;
    }
    if i > 0 && !IsWhite(text[i - 1]) {
      return None, query;
    }
    start, query := Some(i), text[i + 1..cursor];
  }

  // ----- inserting -----

  function Marked(m: Marker): string {
    [SENTINEL] + "@" + m.name
  }

  /** The text with `@query` replaced, and the cursor after the inserted space. */
  function InsertMention(text: string, start: nat, queryLength: nat, m: Marker): (string, nat)
    requires start + 1 + queryLength <= |text|
  {
    var insert := Marked(m) + " ";
    (text[..start] + insert + text[start + 1 + queryLength..], start + |insert|)
  }

  // ----- serializing -----

  /** Where the word that starts at `from` ends: white space, or the end of the text. */
  function WordEnd(text: string, from: nat): (n: nat)
    requires from <= |text|
    ensures from <= n <= |text|
    decreases |text| - from
  {
    if from == |text| || IsWhite(text[from]) then from else WordEnd(text, from + 1)
  }

  function Strip(text: string): string {
    if text == "" then "" else (if text[0] == SENTINEL then "" else [text[0]]) + Strip(text[1..])
  }

  /** A sentinel followed by `@`. */
  predicate StartsRun(text: string) {
    |text| >= 2 && text[0] == SENTINEL && text[1] == '@'
  }

  function After(prefix: string, r: Option<string>): Option<string> {
    if r.Some? then Some(prefix + r.value) else None
  }

  lemma AfterAfter(a: string, b: string, r: Option<string>)
    ensures After(a, After(b, r)) == After(a + b, r)
  {
    if r.Some? { assert a + (b + r.value) == (a + b) + r.value; }
  }

  /** Renders marked runs by `show`, pairing them in order with the markers; None if they do not all pair up. */
  function Render(text: string, markers: seq<Marker>, show: Marker -> string): Option<string>
    decreases |text|
  {
    if text == "" then if markers == [] then Some("") else None
    else if StartsRun(text) then
      var end := WordEnd(text, 2);
      if markers == [] || markers[0].name != text[2..end] then None
      else After(show(markers[0]), Render(text[end..], markers[1..], show))
    else After(if text[0] == SENTINEL then "" else [text[0]], Render(text[1..], markers, show))
  }

  function Serialize(text: string, markers: seq<Marker>): string {
    if SENTINEL !in text then text
    else
      match Render(text, markers, Link)
      case Some(r) => r
      case None => Strip(text)
  }

  // ----- the program's loops -----

  method IndexOfSentinel(text: string, from: nat) returns (at: nat)
    requires from <= |text|
    ensures from <= at <= |text| && (forall k :: from <= k < at ==> text[k] != SENTINEL)
    ensures at < |text| ==> text[at] == SENTINEL
  {
    at := from;
    while at < |text| && text[at] != SENTINEL
      invariant from <= at <= |text| && forall k :: from <= k < at ==> text[k] != SENTINEL
    {
      at := at + 1;
    }
  }

  lemma {:induction false} PlainRun(text: string, n: nat, markers: seq<Marker>, show: Marker -> string)
    requires n <= |text| && forall k :: 0 <= k < n ==> text[k] != SENTINEL
    ensures Render(text, markers, show) == After(text[..n], Render(text[n..], markers, show))
    decreases n
  {
    if n == 0 {
      assert text[0..] == text && text[..0] == "";
      var r := Render(text, markers, show);
      if r.Some? { assert "" + r.value == r.value; }
    } else {
      PlainRun(text[1..], n - 1, markers, show);
      assert text[1..][n - 1..] == text[n..] && text[..n] == [text[0]] + text[1..][..n - 1];
      AfterAfter([text[0]], text[1..][..n - 1], Render(text[n..], markers, show));
    }
  }

  method ReadWord(text: string, from: nat) returns (end: nat)
    requires from <= |text|
    ensures end == WordEnd(text, from)
  {
    end := from;
    while end < |text| && !IsWhite(text[end])
      invariant from <= end <= |text| && WordEnd(text, from) == WordEnd(text, end)
    {
      end := end + 1;
    }
  }

  lemma {:induction false} WordEndShift(text: string, at: nat, from: nat)
    requires at + from <= |text|
    ensures WordEnd(text, at + from) == at + WordEnd(text[at..], from)
    decreases |text| - from
  {
    if at + from < |text| && !IsWhite(text[at + from]) {
      WordEndShift(text, at, from + 1);
    }
  }

  lemma {:induction false} StripPlain(text: string)
    requires SENTINEL !in text
    ensures Strip(text) == text
  {
    if text != "" {
      assert text[0] in text;
      StripPlain(text[1..]);
    }
  }

  /** The rest of the scan from `cursor`, after `out`. */
  function Pending(text: string, markers: seq<Marker>, out: string, cursor: nat, index: nat): Option<string>
    requires cursor <= |text| && index <= |markers|
  {
    After(out, Render(text[cursor..], markers[index..], Link))
  }

  lemma SkipPlain(text: string, markers: seq<Marker>, out: string, cursor: nat, at: nat, index: nat)
    requires cursor <= at <= |text| && index <= |markers| && forall k :: cursor <= k < at ==> text[k] != SENTINEL
    ensures Pending(text, markers, out, cursor, index) == Pending(text, markers, out + text[cursor..at], at, index)
  {
    PlainRun(text[cursor..], at - cursor, markers[index..], Link);
    assert text[cursor..][..at - cursor] == text[cursor..at] && text[cursor..][at - cursor..] == text[at..];
    var r := Render(text[at..], markers[index..], Link);
    if r.Some? {
      assert out + (text[cursor..at] + r.value) == (out + text[cursor..at]) + r.value;
    }
  }

  lemma StraySentinel(text: string, markers: seq<Marker>, out: string, at: nat, index: nat)
    requires at < |text| && index <= |markers| && text[at] == SENTINEL && !(at + 1 < |text| && text[at + 1] == '@')
    ensures Pending(text, markers, out, at, index) == Pending(text, markers, out, at + 1, index)
  {
    assert text[at..][1..] == text[at + 1..];
    var r := Render(text[at + 1..], markers[index..], Link);
    if r.Some? { assert "" + r.value == r.value; }
  }

  lemma MarkedRun(text: string, markers: seq<Marker>, out: string, at: nat, index: nat, end: nat)
    requires at + 1 < |text| && index <= |markers| && text[at] == SENTINEL && text[at + 1] == '@'
    requires end == WordEnd(text, at + 2)
    ensures Pending(text, markers, out, at, index) ==
            if index < |markers| && markers[index].name == text[at + 2..end]
            then Pending(text, markers, out + Link(markers[index]), end, index + 1) else None
  {
    var rest := text[at..];
    WordEndShift(text, at, 2);
    assert rest[2..end - at] == text[at + 2..end] && rest[end - at..] == text[end..];
    RenderRun(rest, markers[index..], Link, end - at);
    if index < |markers| {
      assert markers[index..][0] == markers[index] && markers[index..][1..] == markers[index + 1..];
      AfterAfter(out, Link(markers[index]), Render(text[end..], markers[index + 1..], Link));
    }
  }

  /** One marked run, and what follows it. */
  lemma RenderRun(text: string, markers: seq<Marker>, show: Marker -> string, end: nat)
    requires StartsRun(text) && end == WordEnd(text, 2)
    ensures Render(text, markers, show) ==
            if markers == [] || markers[0].name != text[2..end] then None
            else After(show(markers[0]), Render(text[end..], markers[1..], show))
  {
  }

  lemma PendingStart(text: string, markers: seq<Marker>)
    ensures Pending(text, markers, "", 0, 0) == Render(text, markers, Link)
  {
    assert text[0..] == text && markers[0..] == markers;
    var r := Render(text, markers, Link);
    if r.Some? { assert "" + r.value == r.value; }
  }

  lemma PendingEnd(text: string, markers: seq<Marker>, out: string, index: nat)
    requires index <= |markers|
    ensures Pending(text, markers, out, |text|, index) == if index == |markers| then Some(out) else None
  {
    assert text[|text|..] == "";
    assert out + "" == out;
  }

  method SerializeMentions(text: string, markers: seq<Marker>) returns (s: string)
    ensures s == Serialize(text, markers)
  {
    if SENTINEL !in text {
      return text;
    }
    var out, cursor, markerIndex, abort := "", 0, 0, false;
    PendingStart(text, markers);
    while cursor < |text|
      invariant cursor <= |text| && markerIndex <= |markers|
      invariant Render(text, markers, Link) == Pending(text, markers, out, cursor, markerIndex)
    {
      var at := IndexOfSentinel(text, cursor);
      SkipPlain(text, markers, out, cursor, at, markerIndex);
      out := out + text[cursor..at];
      if at == |text| {
        cursor := at;
        break;
      }
      if at + 1 >= |text| || text[at + 1] != '@' {
        StraySentinel(text, markers, out, at, markerIndex);
        cursor := at + 1;
        continue;
      }
      var wordEnd := ReadWord(text, at + 2);
      MarkedRun(text, markers, out, at, markerIndex, wordEnd);
      if markerIndex >= |markers| || markers[markerIndex].name != text[at + 2..wordEnd] {
        abort := true;
        break;
      }
      out := out + Link(markers[markerIndex]);
      markerIndex := markerIndex + 1;
      cursor := wordEnd;
    }
    if !abort { PendingEnd(text, markers, out, markerIndex); }
    if abort || markerIndex != |markers| {
      s := StripSentinels(text);
      return;
    }
    s := out;
  }

  lemma StripNext(text: string, k: nat, s: string)
    requires k < |text|
    ensures s + Strip(text[k..]) == (if text[k] == SENTINEL then s else s + [text[k]]) + Strip(text[k + 1..])
  {
    assert text[k..][1..] == text[k + 1..];
  }

  method StripSentinels(text: string) returns (s: string)
    ensures s == Strip(text)
  {
    s := "";
    for k := 0 to |text|
      invariant Strip(text) == s + Strip(text[k..])
    {
      StripNext(text, k, s);
      if text[k] != SENTINEL {
        s := s + [text[k]];
      }
    }
    assert text[|text|..] == "";
  }
}
