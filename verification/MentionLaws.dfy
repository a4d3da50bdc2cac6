/** What the composer's mentions serialize to, and what inserting one does. */
module MentionLaws {
  import opened Optional
  import opened Sequences
  import opened Mentions

  // When marked text turns into links, what inserting a mention does to that, and that no character is lost.

  /** The words of the marked runs, as the serializer reads them. */
  function Words(text: string): seq<string>
    decreases |text|
  {
    if text == "" then []
    else if StartsRun(text) then
      var end := WordEnd(text, 2);
      [text[2..end]] + Words(text[end..])
    else Words(text[1..])
  }

  function Names(markers: seq<Marker>): seq<string> {
    if markers == [] then [] else [markers[0].name] + Names(markers[1..])
  }

  lemma {:induction false} NamesAt(markers: seq<Marker>)
    ensures |Names(markers)| == |markers| && forall k :: 0 <= k < |markers| ==> Names(markers)[k] == markers[k].name
  {
    if markers != [] {
      NamesAt(markers[1..]);
    }
  }

  lemma {:induction false} NamesConcat(a: seq<Marker>, b: seq<Marker>)
    ensures Names(a + b) == Names(a) + Names(b)
  {
    if a == [] {
      assert a + b == b;
    } else {
      assert (a + b)[1..] == a[1..] + b;
      NamesConcat(a[1..], b);
    }
  }

  /** Main result: the text is linked exactly when the marked words are, in order, the names of the markers. */
  lemma {:induction false} LinkedExactly(text: string, markers: seq<Marker>, show: Marker -> string)
    ensures Render(text, markers, show).Some? <==> Words(text) == Names(markers)
    decreases |text|
  {
    if text == "" {
    } else if StartsRun(text) {
      var end := WordEnd(text, 2);
      if markers != [] {
        LinkedExactly(text[end..], markers[1..], show);
        SameTail(text[2..end], Words(text[end..]), markers[0].name, Names(markers[1..]));
      }
    } else {
      LinkedExactly(text[1..], markers, show);
    }
  }

  lemma SameTail(x: string, xs: seq<string>, y: string, ys: seq<string>)
    ensures [x] + xs == [y] + ys <==> x == y && xs == ys
  {
    assert ([x] + xs)[0] == x && ([y] + ys)[0] == y && ([x] + xs)[1..] == xs && ([y] + ys)[1..] == ys;
  }

  // ----- cutting the text at white space -----

  /** Empty, or ending in white space: no marked run reaches past its end. */
  predicate Settled(text: string) {
    text == "" || IsWhite(text[|text| - 1])
  }

  lemma {:induction false} WordEndInside(a: string, b: string, from: nat)
    requires from < |a| && Settled(a)
    ensures WordEnd(a + b, from) == WordEnd(a, from) < |a|
    decreases |a| - from
  {
    assert (a + b)[from] == a[from];
    if !IsWhite(a[from]) {
      WordEndInside(a, b, from + 1);
    }
  }

  /** A settled text and what follows it are rendered one after the other. */
  lemma {:induction false} RenderConcat(a: string, b: string, m1: seq<Marker>, m2: seq<Marker>, show: Marker -> string)
    requires Settled(a) && Render(a, m1, show).Some?
    ensures Render(a + b, m1 + m2, show) == After(Render(a, m1, show).value, Render(b, m2, show))
    decreases |a|
  {
    var ab := a + b;
    if a == "" {
      assert ab == b && m1 + m2 == m2;
      if Render(b, m2, show).Some? { assert "" + Render(b, m2, show).value == Render(b, m2, show).value; }
    } else if StartsRun(a) {
      assert !IsWhite('@');
      assert StartsRun(ab);
      WordEndInside(a, b, 2);
      var end := WordEnd(a, 2);
      assert ab[2..end] == a[2..end] && ab[end..] == a[end..] + b;
      assert (m1 + m2)[0] == m1[0] && (m1 + m2)[1..] == m1[1..] + m2;
      RenderConcat(a[end..], b, m1[1..], m2, show);
      AfterAfter(show(m1[0]), Render(a[end..], m1[1..], show).value, Render(b, m2, show));
    } else {
      assert !IsWhite(SENTINEL);
      assert !StartsRun(ab);
      assert ab[1..] == a[1..] + b;
      RenderConcat(a[1..], b, m1, m2, show);
      AfterAfter(if a[0] == SENTINEL then "" else [a[0]], Render(a[1..], m1, show).value, Render(b, m2, show));
    }
  }

  lemma {:induction false} WordsConcat(a: string, b: string)
    requires Settled(a)
    ensures Words(a + b) == Words(a) + Words(b)
    decreases |a|
  {
    var ab := a + b;
    if a == "" {
      assert ab == b;
    } else if StartsRun(a) {
      assert !IsWhite('@');
      WordEndInside(a, b, 2);
      var end := WordEnd(a, 2);
      assert ab[2..end] == a[2..end] && ab[end..] == a[end..] + b;
      WordsConcat(a[end..], b);
      assert [a[2..end]] + (Words(a[end..]) + Words(b)) == ([a[2..end]] + Words(a[end..])) + Words(b);
    } else {
      assert !IsWhite(SENTINEL);
      assert ab[1..] == a[1..] + b;
      WordsConcat(a[1..], b);
    }
  }

  // ----- one inserted mention -----

  predicate NoWhite(s: string) {
    forall k | 0 <= k < |s| :: !IsWhite(s[k])
  }

  lemma {:induction false} WordEndIs(text: string, from: nat, end: nat)
    requires from <= end <= |text| && (forall k :: from <= k < end ==> !IsWhite(text[k]))
    requires end < |text| ==> IsWhite(text[end])
    ensures WordEnd(text, from) == end
    decreases end - from
  {
    if from < end {
      WordEndIs(text, from + 1, end);
    }
  }

  /** A marked name without white space, a space, and the rest. */
  lemma MarkedName(m: Marker, rest: string, markers: seq<Marker>, show: Marker -> string)
    requires NoWhite(m.name)
    ensures Words(Marked(m) + " " + rest) == [m.name] + Words(rest)
    ensures markers != [] ==>
              Render(Marked(m) + " " + rest, markers, show) ==
              if markers[0].name == m.name then After(show(markers[0]) + " ", Render(rest, markers[1..], show))
              else None
  {
    var text := Marked(m) + " " + rest;
    var end := 2 + |m.name|;
    assert forall k :: 2 <= k < end ==> text[k] == m.name[k - 2];
    assert text[end] == ' ';
    WordEndIs(text, 2, end);
    assert text[2..end] == m.name && text[end..] == " " + rest;
    assert !StartsRun(text[end..]) && text[end..][1..] == rest;
    assert Words(text[end..]) == Words(rest);
    if markers != [] {
      AfterAfter(show(markers[0]), " ", Render(rest, markers[1..], show));
    }
  }

  /** Main result: inserting a mention after linked text and sending the result sends the text that was linked
      before, the new link, a space, and the rest. */
  lemma InsertThenSend(before: string, after: string, markers: seq<Marker>, m: Marker)
    requires Settled(before) && NoWhite(m.name) && SENTINEL !in after
    requires Render(before, markers, Link).Some?
    ensures Serialize(before + Marked(m) + " " + after, markers + [m]) ==
            Serialize(before, markers) + Link(m) + " " + after
  {
    var tail := Marked(m) + " " + after;
    RenderConcat(before, tail, markers, [m], Link);
    MarkedThenPlain(m, after);
    PlainSerialize(before, markers);
    SendsWhatItRenders(before, m, after, markers + [m], Render(before, markers, Link).value);
  }

  lemma SendsWhatItRenders(before: string, m: Marker, after: string, markers: seq<Marker>, b: string)
    requires Render(before + (Marked(m) + " " + after), markers, Link) == Some(b + ((Link(m) + " ") + after))
    ensures Serialize(before + Marked(m) + " " + after, markers) == b + Link(m) + " " + after
  {
    var text := before + Marked(m) + " " + after;
    assert text == before + (Marked(m) + " " + after);
    assert text[|before|] == SENTINEL;
    assert b + ((Link(m) + " ") + after) == b + Link(m) + " " + after;
  }

  lemma MarkedThenPlain(m: Marker, after: string)
    requires NoWhite(m.name) && SENTINEL !in after
    ensures Render(Marked(m) + " " + after, [m], Link) == Some((Link(m) + " ") + after)
  {
    MarkedName(m, after, [m], Link);
    PlainText(after, Link);
    assert [m][1..] == [];
  }

  /** Main result, in the composer's own steps: replacing the token under the cursor by a mention and sending. */
  lemma MentionRoundTrip(text: string, cursor: nat, start: nat, markers: seq<Marker>, m: Marker)
    requires IsToken(text, cursor, start) && SENTINEL !in text[cursor..]
    requires Render(text[..start], markers, Link).Some? && NoWhite(m.name)
    ensures var (inserted, selection) := InsertMention(text, start, cursor - start - 1, m);
      && Serialize(inserted, markers + [m]) == Serialize(text[..start], markers) + Link(m) + " " + text[cursor..]
      && inserted[selection..] == text[cursor..]
  {
    InsertThenSend(text[..start], text[cursor..], markers, m);
    var insert := Marked(m) + " ";
    assert text[..start] + insert + text[cursor..] == text[..start] + Marked(m) + " " + text[cursor..];
  }

  lemma {:induction false} PlainText(text: string, show: Marker -> string)
    requires SENTINEL !in text
    ensures Render(text, [], show) == Some(text)
  {
    if text != "" {
      assert text[0] in text;
      PlainText(text[1..], show);
      assert [text[0]] + text[1..] == text;
    }
  }

  /** The fast path agrees with the scan. */
  lemma PlainSerialize(text: string, markers: seq<Marker>)
    requires Render(text, markers, Link).Some?
    ensures Serialize(text, markers) == Render(text, markers, Link).value
  {
    if SENTINEL !in text {
      PlainText(text, Link);
      LinkedExactly(text, markers, Link);
      LinkedExactly(text, [], Link);
      NamesAt(markers);
      assert Names([]) == [];
    }
  }

  // ----- exactly which insertions can be sent as links -----

  lemma {:induction false} WordsOfPlain(text: string)
    requires SENTINEL !in text
    ensures Words(text) == []
  {
    if text != "" {
      assert text[0] in text;
      WordsOfPlain(text[1..]);
    }
  }

  lemma MarkedShape(m: Marker, rest: string, text: string, n: nat)
    requires text == Marked(m) + " " + rest && n <= |m.name|
    ensures StartsRun(text) && |text| == 3 + |m.name| + |rest|
    ensures text[2..2 + n] == m.name[..n] && text[2 + n..] == (m.name[n..] + " ") + rest
    ensures (forall k :: 2 <= k < 2 + |m.name| ==> text[k] == m.name[k - 2]) && text[2 + |m.name|] == ' '
  {
  }

  /** What the serializer reads of a marked name: its first word, then whatever follows in the rest. */
  lemma MarkedWords(m: Marker, rest: string)
    requires SENTINEL !in m.name
    ensures var n := WordEnd(m.name, 0);
      Words(Marked(m) + " " + rest) == [m.name[..n]] + Words(rest)
  {
    var n := WordEnd(m.name, 0);
    var text := Marked(m) + " " + rest;
    WordEndStops(m.name, 0);
    var end := 2 + n;
    MarkedShape(m, rest, text, n);
    WordEndIs(text, 2, end);
    RunWords(text, end);
    GapWords(m.name[n..], rest);
  }

  lemma RunWords(text: string, end: nat)
    requires StartsRun(text) && WordEnd(text, 2) == end
    ensures Words(text) == [text[2..end]] + Words(text[end..])
  {
  }

  lemma GapWords(tail: string, rest: string)
    requires SENTINEL !in tail
    ensures Words((tail + " ") + rest) == Words(rest)
  {
    var gap := tail + " ";
    assert SENTINEL !in gap && Settled(gap);
    WordsConcat(gap, rest);
    WordsOfPlain(gap);
  }

  lemma {:induction false} WordEndStops(text: string, from: nat)
    requires from <= |text|
    ensures forall k :: from <= k < WordEnd(text, from) ==> !IsWhite(text[k])
    ensures WordEnd(text, from) < |text| ==> IsWhite(text[WordEnd(text, from)])
    decreases |text| - from
  {
    if from < |text| && !IsWhite(text[from]) {
      WordEndStops(text, from + 1);
    }
  }

  /** Rotating a list by one leaves it as it was only if the first element is all there is. */
  lemma {:induction false} RotatedIsConstant<T>(x: T, y: T, rest: seq<T>)
    ensures [x] + rest == rest + [y] <==> x == y && forall k :: 0 <= k < |rest| ==> rest[k] == x
  {
    if [x] + rest == rest + [y] {
      forall k | 0 <= k <= |rest| ensures ([x] + rest)[k] == x {
        RotatedAt(x, y, rest, k);
      }
      assert (rest + [y])[|rest|] == y;
      forall k | 0 <= k < |rest| ensures rest[k] == x {
        assert ([x] + rest)[k + 1] == rest[k];
      }
    }
    if x == y && forall k :: 0 <= k < |rest| ==> rest[k] == x {
      assert forall k :: 0 <= k <= |rest| ==> ([x] + rest)[k] == (rest + [y])[k];
    }
  }

  lemma {:induction false} RotatedAt<T>(x: T, y: T, rest: seq<T>, k: nat)
    requires [x] + rest == rest + [y] && k <= |rest|
    ensures ([x] + rest)[k] == x
  {
    if k > 0 {
      RotatedAt(x, y, rest, k - 1);
      assert ([x] + rest)[k] == rest[k - 1] && (rest + [y])[k - 1] == rest[k - 1];
    }
  }

  /** The words of a text with a marked name inserted behind settled text. */
  lemma InsertedWords(before: string, after: string, m: Marker)
    requires Settled(before) && SENTINEL !in m.name
    ensures var n := WordEnd(m.name, 0);
      Words(before + Marked(m) + " " + after) == Words(before) + ([m.name[..n]] + Words(after))
  {
    var tail := Marked(m) + " " + after;
    assert before + Marked(m) + " " + after == before + tail;
    WordsConcat(before, tail);
    MarkedWords(m, after);
  }

  lemma PushedNames(m1: seq<Marker>, m2: seq<Marker>, m: Marker)
    ensures Names(m1 + m2 + [m]) == Names(m1) + (Names(m2) + [m.name])
  {
    NamesConcat(m1 + m2, [m]);
    NamesConcat(m1, m2);
    assert Names([m]) == [m.name] by { assert [m][1..] == []; assert Names([]) == []; }
  }

  lemma FirstWordIsName(name: string)
    ensures name[..WordEnd(name, 0)] == name <==> NoWhite(name)
  {
    WordEndStops(name, 0);
  }

  /** Main result: with the mention inserted between linked pieces and its marker pushed last, the text can be sent as
      links exactly when the name has no white space and every mention after the insertion has that same name. */
  lemma InsertedIsLinked(before: string, after: string, m1: seq<Marker>, m2: seq<Marker>, m: Marker)
    requires Settled(before) && SENTINEL !in m.name
    requires Words(before) == Names(m1) && Words(after) == Names(m2)
    ensures Render(before + Marked(m) + " " + after, m1 + m2 + [m], Link).Some? <==>
            NoWhite(m.name) && forall k :: 0 <= k < |m2| ==> m2[k].name == m.name
  {
    InsertedWords(before, after, m);
    PushedNames(m1, m2, m);
    LinkedExactly(before + Marked(m) + " " + after, m1 + m2 + [m], Link);
    FirstWordIsName(m.name);
    PrefixThenRotated(Names(m1), m.name[..WordEnd(m.name, 0)], m.name, Names(m2));
    NamesAt(m2);
  }

  lemma PrefixThenRotated(a: seq<string>, x: string, y: string, rest: seq<string>)
    ensures a + ([x] + rest) == a + (rest + [y]) <==> x == y && forall k :: 0 <= k < |rest| ==> rest[k] == x
  {
    SamePrefix(a, [x] + rest, rest + [y]);
    RotatedIsConstant(x, y, rest);
  }

  /** A name with white space is never linked, wherever it is inserted: what is sent has no links at all. */
  lemma SpacedNeverLinks(before: string, after: string, m1: seq<Marker>, m2: seq<Marker>, m: Marker)
    requires Settled(before) && SENTINEL !in m.name && !NoWhite(m.name)
    requires Words(before) == Names(m1) && Words(after) == Names(m2)
    ensures var text := before + Marked(m) + " " + after;
      Serialize(text, m1 + m2 + [m]) == Strip(text)
  {
    var text := before + Marked(m) + " " + after;
    InsertedIsLinked(before, after, m1, m2, m);
    LinkedExactly(text, m1 + m2 + [m], Link);
    AllOrNothing(text, m1 + m2 + [m]);
  }

  /** One such name. */
  lemma SpacedName(m: Marker)
    requires m.name == "A B"
    ensures Serialize(Marked(m) + " ", [m]) == "@A B "
  {
    assert m.name[1] == ' ';
    SpacedNeverLinks("", "", [], [], m);
    assert "" + Marked(m) + " " + "" == Marked(m) + " " && [] + [] + [m] == [m];
    assert Marked(m) + " " == [SENTINEL] + "@A B ";
    assert ([SENTINEL] + "@A B ")[1..] == "@A B ";
    StripPlain("@A B ");
  }

  // ----- which links are sent -----

  /** The text with the mention inserted, when it is linked: the runs from the insertion on take the later markers first
      and the new one last. */
  lemma InsertedSends(before: string, after: string, m1: seq<Marker>, m2: seq<Marker>, m: Marker)
    requires Settled(before) && SENTINEL !in m.name && NoWhite(m.name)
    requires Words(before) == Names(m1) && Words(after) == Names(m2)
    requires forall k :: 0 <= k < |m2| ==> m2[k].name == m.name
    ensures var turned := m2 + [m];
      Serialize(before + Marked(m) + " " + after, m1 + m2 + [m]) ==
      Serialize(before, m1) + Link(turned[0]) + " " + Serialize(after, turned[1..])
  {
    var tail, turned := Marked(m) + " " + after, m2 + [m];
    var text, markers := before + Marked(m) + " " + after, m1 + m2 + [m];
    assert text == before + tail && markers == m1 + turned;
    InsertedIsLinked(before, after, m1, m2, m);
    PlainSerialize(text, markers);
    LinkedExactly(before, m1, Link);
    PlainSerialize(before, m1);
    RenderConcat(before, tail, m1, turned, Link);
    MarkedName(m, after, turned, Link);
    PlainSerialize(after, turned[1..]);
    FourParts(Serialize(before, m1), Link(turned[0]), " ", Serialize(after, turned[1..]));
  }

  lemma FourParts<T>(a: seq<T>, b: seq<T>, c: seq<T>, d: seq<T>)
    ensures a + ((b + c) + d) == a + b + c + d
  {
  }

  /** Main result: rendered in any way, the marked runs all get their own markers exactly when the name has no white
      space and every mention after the insertion is the very one inserted. */
  lemma OwnTargetsExactly(before: string, after: string, m1: seq<Marker>, m2: seq<Marker>, m: Marker)
    requires Settled(before) && SENTINEL !in m.name
    requires Words(before) == Names(m1) && Words(after) == Names(m2)
    ensures (forall show: Marker -> string :: OwnTargets(before + Marked(m) + " " + after, m1, m2, m, show)) <==>
            NoWhite(m.name) && forall k :: 0 <= k < |m2| ==> m2[k] == m
  {
    var text := before + Marked(m) + " " + after;
    InsertedIsLinked(before, after, m1, m2, m);
    LinkedExactly(text, m1 + m2 + [m], Link);
    if forall show: Marker -> string :: OwnTargets(text, m1, m2, m, show) {
      OwnMeansSame(text, m1, m2, m);
    }
    if NoWhite(m.name) && forall k :: 0 <= k < |m2| ==> m2[k] == m {
      SameMarkers(text, m1, m2, m);
    }
  }

  lemma OwnMeansSame(text: string, m1: seq<Marker>, m2: seq<Marker>, m: Marker)
    requires forall show: Marker -> string :: OwnTargets(text, m1, m2, m, show)
    ensures Words(text) == Names(m1 + m2 + [m]) && forall k :: 0 <= k < |m2| ==> m2[k] == m
  {
    var tell: Marker -> string := x => if x == m then "1" else "0";
    assert OwnTargets(text, m1, m2, m, tell);
    LinkedExactly(text, m1 + m2 + [m], tell);
    SameShown(text, m1 + m2 + [m], m1 + [m] + m2, m);
    AllShown(m1, m2, m, m1 + m2 + [m], m1 + [m] + m2);
  }

  lemma SameMarkers(text: string, m1: seq<Marker>, m2: seq<Marker>, m: Marker)
    requires Words(text) == Names(m1 + m2 + [m]) && forall k :: 0 <= k < |m2| ==> m2[k] == m
    ensures forall show: Marker -> string :: OwnTargets(text, m1, m2, m, show)
  {
    RotatedIsConstant(m, m, m2);
    Regroup(m1, m2, [m]);
    Regroup(m1, [m], m2);
    forall show: Marker -> string ensures OwnTargets(text, m1, m2, m, show) {
      LinkedExactly(text, m1 + m2 + [m], show);
    }
  }

  /** With the markers as they are kept, the new one last, the text renders as with the new one in its place. */
  ghost predicate OwnTargets(text: string, m1: seq<Marker>, m2: seq<Marker>, m: Marker, show: Marker -> string) {
    Render(text, m1 + m2 + [m], show).Some? && Render(text, m1 + m2 + [m], show) == Render(text, m1 + [m] + m2, show)
  }

  /** Renderings that tell `m` from other markers by one character give away which runs are shown as `m`. */
  lemma {:induction false} SameShown(text: string, a: seq<Marker>, b: seq<Marker>, m: Marker)
    requires var tell: Marker -> string := x => if x == m then "1" else "0";
      Render(text, a, tell).Some? && Render(text, a, tell) == Render(text, b, tell)
    ensures |a| == |b| && forall k :: 0 <= k < |a| ==> (a[k] == m <==> b[k] == m)
    decreases |text|
  {
    var tell: Marker -> string := x => if x == m then "1" else "0";
    if text == "" {
    } else if StartsRun(text) {
      var end := WordEnd(text, 2);
      SameAfter(tell(a[0]), Render(text[end..], a[1..], tell), tell(b[0]), Render(text[end..], b[1..], tell));
      SameShown(text[end..], a[1..], b[1..], m);
      assert forall k :: 1 <= k < |a| ==> a[k] == a[1..][k - 1] && b[k] == b[1..][k - 1];
    } else {
      var c := if text[0] == SENTINEL then "" else [text[0]];
      SameAfter(c, Render(text[1..], a, tell), c, Render(text[1..], b, tell));
      SameShown(text[1..], a, b, m);
    }
  }

  lemma SameAfter(x: string, r: Option<string>, y: string, s: Option<string>)
    requires |x| == |y| && After(x, r).Some? && After(x, r) == After(y, s)
    ensures x == y && r.Some? && r == s
  {
    var all := x + r.value;
    assert all[..|x|] == x && all[|x|..] == r.value && all == y + s.value && all[..|y|] == y && all[|y|..] == s.value;
  }

  lemma AllShown(m1: seq<Marker>, m2: seq<Marker>, m: Marker, a: seq<Marker>, b: seq<Marker>)
    requires a == m1 + m2 + [m] && b == m1 + [m] + m2 && forall k :: 0 <= k < |a| ==> (a[k] == m <==> b[k] == m)
    ensures forall k :: 0 <= k < |m2| ==> m2[k] == m
  {
    var x := seq(|m2|, k requires 0 <= k < |m2| => m2[k] == m);
    forall k | 0 <= k <= |m2| ensures ([true] + x)[k] == (x + [true])[k] {
      var i := |m1| + k;
      assert a[i] == (if k < |m2| then m2[k] else m) && b[i] == (if k == 0 then m else m2[k - 1]);
      assert a[i] == m <==> b[i] == m;
    }
    RotatedIsConstant(true, true, x);
    assert forall k :: 0 <= k < |m2| ==> x[k] == (m2[k] == m);
  }

  /** One Ann inserted in front of another: each is sent as a link to the other. */
  lemma LinksSwap(n: Marker, m: Marker)
    requires n == Marker(Member, "2", "Ann") && m == Marker(Member, "1", "Ann")
    ensures var after := Marked(n) + " ";
      && Serialize(after, [n]) == Link(n) + " "
      && Serialize(Marked(m) + " " + after, [n, m]) == (Link(n) + " ") + (Link(m) + " ")
  {
    OneMention(n, n);
    OneMention(n, m);
    InsertedSends("", Marked(n) + " ", [], [n], m);
    assert [] + [n] + [m] == [n, m] && ([n] + [m])[1..] == [m];
    NoneBefore(Marked(m), " ", Marked(n) + " ");
    NoneBefore(Link(n), " ", Link(m) + " ");
  }

  lemma NoneBefore<T>(a: seq<T>, b: seq<T>, c: seq<T>)
    ensures [] + a + b + c == (a + b) + c
  {
  }

  /** A text that is one mention, sent with a marker of that name. */
  lemma OneMention(n: Marker, m: Marker)
    requires NoWhite(n.name) && m.name == n.name
    ensures Words(Marked(n) + " ") == Names([m]) && Serialize(Marked(n) + " ", [m]) == Link(m) + " "
  {
    assert Marked(n) + " " + "" == Marked(n) + " " && [m][1..] == [] && (Link(m) + " ") + "" == Link(m) + " ";
    MarkedName(n, "", [m], Link);
    PlainSerialize(Marked(n) + " ", [m]);
    assert Names([]) == [];
  }

  // ----- nothing is lost -----

  /** Main result: when the text is linked and no name holds a sentinel, replacing each link by `@name` gives the text
      with its sentinels removed; so the links are all that was added. */
  lemma {:induction false} LinksErase(text: string, markers: seq<Marker>)
    requires Words(text) == Names(markers) && forall k :: 0 <= k < |markers| ==> SENTINEL !in markers[k].name
    ensures Render(text, markers, AtName) == Some(Strip(text))
    decreases |text|
  {
    if text == "" {
    } else if StartsRun(text) {
      var end := WordEnd(text, 2);
      SameTail(text[2..end], Words(text[end..]), markers[0].name, Names(markers[1..]));
      LinksErase(text[end..], markers[1..]);
      var name := markers[0].name;
      assert text == [SENTINEL] + ("@" + name) + text[end..];
      StripConcat([SENTINEL] + ("@" + name), text[end..]);
      StripMarked(name);
    } else {
      LinksErase(text[1..], markers);
    }
  }

  lemma StripMarked(name: string)
    requires SENTINEL !in name
    ensures Strip([SENTINEL] + ("@" + name)) == "@" + name
  {
    assert ([SENTINEL] + ("@" + name))[1..] == "@" + name;
    StripPlain("@" + name);
  }

  lemma {:induction false} StripConcat(a: string, b: string)
    ensures Strip(a + b) == Strip(a) + Strip(b)
  {
    if a == "" {
      assert a + b == b;
    } else {
      assert (a + b)[1..] == a[1..] + b;
      StripConcat(a[1..], b);
    }
  }

  /** All or nothing: what is sent is the stripped text, or a rendering that paired every marked run with a marker. */
  lemma AllOrNothing(text: string, markers: seq<Marker>)
    ensures Words(text) != Names(markers) ==> Serialize(text, markers) == Strip(text)
    ensures Words(text) == Names(markers) ==> Render(text, markers, Link) == Some(Serialize(text, markers))
  {
    LinkedExactly(text, markers, Link);
    if SENTINEL !in text {
      StripPlain(text);
    }
    if Words(text) == Names(markers) {
      PlainSerialize(text, markers);
    }
  }
}
