/** What the server reads. */
module MentionReader {
  import opened Optional
  import opened Sequences
  import opened Mentions
  import opened MentionLaws

  // The pattern by which the server finds mentions in a comment, and that it reads from what the composer sends just
  // the mentions that were inserted: their types and ids, in order.

  const ANCHOR := "](mention://"

  // ----- the pattern -----

  /** `p` stands at place i. */
  predicate Has(s: string, i: nat, p: string) {
    i + |p| <= |s| && forall j | 0 <= j < |p| :: s[i + j] == p[j]
  }

  predicate IsIdChar(c: char) {
    '0' <= c <= '9' || 'a' <= c <= 'f' || 'A' <= c <= 'F' || c == '-'
  }

  /** `[0-9a-fA-F-]+`, as far as it goes. */
  function IdEnd(s: string, i: nat): (n: nat)
    requires i <= |s|
    ensures i <= n <= |s|
    decreases |s| - i
  {
    if i == |s| || !IsIdChar(s[i]) then i else IdEnd(s, i + 1)
  }

  /** `([0-9a-fA-F-]+|all)\)`: where the id ends. */
  function ReadId(s: string, i: nat): (r: Option<nat>)
    requires i <= |s|
    ensures r.Some? ==> i <= r.value < |s|
  {
    var n := IdEnd(s, i);
    if i < n < |s| && s[n] == ')' then Some(n)
    else if Has(s, i, "all)") then Some(i + 3)
    else None
  }

  datatype Mention = Mention(kind: MentionType, id: string)

  /** A mention, and where its text ends. */
  datatype Read = Read(mention: Mention, end: nat)

  function WithId(s: string, i: nat, kind: MentionType): (r: Option<Read>)
    requires i <= |s|
    ensures r.Some? ==> i < r.value.end <= |s|
  {
    match ReadId(s, i)
    case Some(n) => Some(Read(Mention(kind, s[i..n]), n + 1))
    case None => None
  }

  /** `(member|agent|squad|issue|all)/` and the id. */
  function ReadTarget(s: string, i: nat): (r: Option<Read>)
    ensures r.Some? ==> i < r.value.end <= |s|
  {
    if Has(s, i, "member/") then WithId(s, i + 7, Member)
    else if Has(s, i, "agent/") then WithId(s, i + 6, Agent)
    else if Has(s, i, "squad/") then WithId(s, i + 6, Squad)
    else if Has(s, i, "issue/") then WithId(s, i + 6, Issue)
    else if Has(s, i, "all/") then WithId(s, i + 4, All)
    else None
  }

  /** `\]\(mention://` and the target. */
  function ReadTail(s: string, i: nat): (r: Option<Read>)
    ensures r.Some? ==> i < r.value.end <= |s|
  {
    if Has(s, i, ANCHOR) then ReadTarget(s, i + |ANCHOR|) else None
  }

  function TailsOf(s: string): nat -> Option<Read> {
    (i: nat) => ReadTail(s, i)
  }

  /** `(.+?)`: where the shortest label ends, of `least` characters at least and on one line, that a tail follows. */
  function LabelEnd(s: string, i: nat, least: nat, tail: nat -> Option<Read>): (r: Option<nat>)
    requires i <= |s|
    ensures r.Some? ==> i + least <= r.value <= |s| && tail(r.value).Some?
    decreases |s| - i
  {
    if least == 0 && tail(i).Some? then Some(i)
    else if i == |s| || s[i] == '\n' then None
    else LabelEnd(s, i + 1, if least > 0 then least - 1 else 0, tail)
  }

  /** A label from place i on, and the tail that follows it. */
  function ReadFrom(s: string, i: nat, tail: nat -> Option<Read>): Option<Read>
    requires i <= |s|
  {
    match LabelEnd(s, i, 1, tail)
    case Some(n) => tail(n)
    case None => None
  }

  /** `\[@?` and the rest: the `@` is taken if the match succeeds so, and left to the label if not. */
  function ReadMention(s: string, i: nat, tail: nat -> Option<Read>): Option<Read> {
    if i >= |s| || s[i] != '[' then None
    else if i + 1 < |s| && s[i + 1] == '@' && ReadFrom(s, i + 2, tail).Some? then ReadFrom(s, i + 2, tail)
    else ReadFrom(s, i + 1, tail)
  }

  /** A tail ends behind its start, within the text. */
  ghost predicate Fits(s: string, tail: nat -> Option<Read>) {
    forall i: nat :: tail(i).Some? ==> i < tail(i).value.end <= |s|
  }

  /** The mentions from place i on, none overlapping another. */
  function FindAll(s: string, i: nat, tail: nat -> Option<Read>): seq<Mention>
    requires Fits(s, tail)
    decreases |s| - i
  {
    if i >= |s| then []
    else
      match ReadMention(s, i, tail)
      case Some(r) => [r.mention] + FindAll(s, r.end, tail)
      case None => FindAll(s, i + 1, tail)
  }

  function ReadAll(s: string): seq<Mention> {
    FindAll(s, 0, TailsOf(s))
  }

  // ----- labels and mentions, for any kind of tail -----

  lemma {:induction false} LabelFound(s: string, i: nat, least: nat, n: nat, tail: nat -> Option<Read>)
    requires i + least <= n <= |s| && (forall k :: i <= k < n ==> tail(k) == None) && tail(n).Some?
    requires forall k :: i <= k < n ==> s[k] != '\n'
    ensures LabelEnd(s, i, least, tail) == Some(n)
    decreases n - i
  {
    if i < n { LabelFound(s, i + 1, if least > 0 then least - 1 else 0, n, tail); }
  }

  lemma {:induction false} LabelBroken(s: string, i: nat, least: nat, at: nat, tail: nat -> Option<Read>)
    requires i <= at < |s| && (forall k :: i <= k <= at ==> tail(k) == None) && s[at] == '\n'
    ensures LabelEnd(s, i, least, tail) == None
    decreases at - i
  {
    if i < at { LabelBroken(s, i + 1, if least > 0 then least - 1 else 0, at, tail); }
  }

  lemma {:induction false} NoLabel(s: string, i: nat, least: nat, tail: nat -> Option<Read>)
    requires i <= |s| && forall k :: i <= k <= |s| ==> tail(k) == None
    ensures LabelEnd(s, i, least, tail) == None
    decreases |s| - i
  {
    if i < |s| { NoLabel(s, i + 1, if least > 0 then least - 1 else 0, tail); }
  }

  /** The link's `[` is at `open`, and the first tail behind place i at n. */
  ghost predicate OpensAt(s: string, i: nat, open: nat, n: nat, tail: nat -> Option<Read>) {
    && i <= open && open + 1 < n <= |s| && s[open] == '[' && (s[open + 1] == '@' ==> open + 2 < n)
    && (forall k :: i <= k < n ==> tail(k) == None) && tail(n).Some?
    && forall k :: open <= k < n ==> s[k] != '\n'
  }

  /** A line feed between the places. */
  predicate Broken(s: string, i: nat, n: nat)
    requires n <= |s|
  {
    exists k | i < k < n :: s[k] == '\n'
  }

  lemma ReadHere(s: string, i: nat, open: nat, n: nat, tail: nat -> Option<Read>)
    requires OpensAt(s, i, open, n, tail) && s[i] == '[' && !Broken(s, i, n)
    ensures ReadMention(s, i, tail) == tail(n)
  {
    assert s[i + 1] == '@' ==> i + 2 < n;
    LabelFound(s, i + 1, 1, n, tail);
    if s[i + 1] == '@' { LabelFound(s, i + 2, 1, n, tail); }
  }

  lemma SkipHere(s: string, i: nat, open: nat, n: nat, tail: nat -> Option<Read>)
    requires OpensAt(s, i, open, n, tail) && (s[i] != '[' || Broken(s, i, n))
    ensures ReadMention(s, i, tail) == None && i < open
  {
    if s[i] == '[' {
      var k :| i < k < n && s[k] == '\n';
      LabelBroken(s, i + 1, 1, k, tail);
      if s[i + 1] == '@' { LabelBroken(s, i + 2, 1, k, tail); }
    }
  }

  /** Whatever opens before it, the first mention read is the first link. */
  lemma {:induction false} FirstRead(s: string, i: nat, open: nat, n: nat, tail: nat -> Option<Read>)
    requires Fits(s, tail) && OpensAt(s, i, open, n, tail)
    ensures FindAll(s, i, tail) == [tail(n).value.mention] + FindAll(s, tail(n).value.end, tail)
    decreases open - i
  {
    if s[i] == '[' && !Broken(s, i, n) {
      ReadHere(s, i, open, n, tail);
    } else {
      SkipHere(s, i, open, n, tail);
      FirstRead(s, i + 1, open, n, tail);
    }
  }

  lemma {:induction false} NothingRead(s: string, i: nat, tail: nat -> Option<Read>)
    requires Fits(s, tail) && forall k :: i <= k <= |s| ==> tail(k) == None
    ensures FindAll(s, i, tail) == []
    decreases |s| - i
  {
    if i < |s| {
      NoLabel(s, i + 1, 1, tail);
      if i + 1 < |s| { NoLabel(s, i + 2, 1, tail); }
      NothingRead(s, i + 1, tail);
    }
  }

  // ----- anchors -----

  predicate NoAnchor(s: string) {
    forall k | 0 <= k <= |s| :: !Has(s, k, ANCHOR)
  }

  lemma PartHasNone(a: string, b: string, c: string)
    requires NoAnchor(a + b + c)
    ensures NoAnchor(b)
  {
    var s := a + b + c;
    forall k | 0 <= k <= |b| ensures !Has(b, k, ANCHOR) {
      assert !Has(s, |a| + k, ANCHOR);
      if k + 12 <= |b| {
        var j :| 0 <= j < 12 && s[|a| + k + j] != ANCHOR[j];
        assert b[k + j] == s[|a| + k + j];
      }
    }
  }

  lemma AnchorAlone(d: nat)
    requires d < 12
    ensures ANCHOR[d] != '[' && (d > 0 ==> ANCHOR[d] != ']')
  {
  }

  lemma NoneWithin(s: string, k: nat, part: string, at: nat)
    requires NoAnchor(part) && at <= k && at + 12 <= |part| && Has(s, k - at, part)
    ensures !Has(s, k, ANCHOR)
  {
    assert !Has(part, at, ANCHOR);
    var j :| 0 <= j < 12 && part[at + j] != ANCHOR[j];
    assert s[k - at + (at + j)] == part[at + j];
    assert s[k + j] != ANCHOR[j];
  }

  lemma OtherChar(s: string, k: nat, d: nat)
    requires d < 12 && k + d < |s| && s[k + d] != ANCHOR[d]
    ensures !Has(s, k, ANCHOR)
  {
  }

  /** Neither `[` nor a second `]` occurs in the anchor, so none starts before the one of the link. */
  lemma LinkHasOne(s: string, i: nat, p: string, shown: string, q: nat, k: nat)
    requires NoAnchor(p) && NoAnchor(shown) && q == i + |p| + 1 + |shown| < |s| && s[q] == ']'
    requires Has(s, i, p) && s[i + |p|] == '[' && Has(s, i + |p| + 1, shown)
    requires i <= k < q
    ensures !Has(s, k, ANCHOR)
  {
    var n := i + |p|;
    if k + 12 <= n {
      NoneWithin(s, k, p, k - i);
    } else if k <= n {
      AnchorAlone(n - k);
      OtherChar(s, k, n - k);
    } else if k + 12 <= q {
      NoneWithin(s, k, shown, k - n - 1);
    } else {
      AnchorAlone(q - k);
      OtherChar(s, k, q - k);
    }
  }

  // ----- the tail of a link -----

  /** An id as the server issues them. */
  predicate ServerId(id: string) {
    id == "all" || (id != "" && forall k | 0 <= k < |id| :: IsIdChar(id[k]))
  }

  lemma {:induction false} IdEndIs(s: string, i: nat, n: nat)
    requires i <= n <= |s| && (forall k :: i <= k < n ==> IsIdChar(s[k])) && (n < |s| ==> !IsIdChar(s[n]))
    ensures IdEnd(s, i) == n
    decreases n - i
  {
    if i < n { IdEndIs(s, i + 1, n); }
  }

  lemma ReadIdIs(s: string, i: nat, id: string)
    requires ServerId(id) && Has(s, i, id) && i + |id| < |s| && s[i + |id|] == ')'
    ensures ReadId(s, i) == Some(i + |id|)
  {
    var n := i + |id|;
    if id == "all" {
      assert s[i + 0] == id[0] && s[i + 1] == id[1] && s[i + 2] == id[2];
      IdEndIs(s, i, i + 1);
      assert Has(s, i, "all)");
    } else {
      forall k | i <= k < n ensures IsIdChar(s[k]) { assert s[i + (k - i)] == id[k - i]; }
      IdEndIs(s, i, n);
    }
  }

  lemma WithIdIs(s: string, i: nat, kind: MentionType, id: string)
    requires ServerId(id) && Has(s, i, id) && i + |id| < |s| && s[i + |id|] == ')'
    ensures WithId(s, i, kind) == Some(Read(Mention(kind, id), i + |id| + 1))
  {
    ReadIdIs(s, i, id);
    forall k | 0 <= k < |id| ensures s[i..i + |id|][k] == id[k] { assert s[i + k] == id[k]; }
    assert s[i..i + |id|] == id;
  }

  /** A word that differs from the one that stands there does not. */
  lemma DifferAt(s: string, i: nat, word: string, other: string, k: nat)
    requires Has(s, i, word) && k < |word| && k < |other| && word[k] != other[k]
    ensures !Has(s, i, other)
  {
    assert s[i + k] == word[k];
  }

  /** What the server takes each kind's word for. */
  lemma ReadTargetIs(s: string, i: nat, kind: MentionType, id: string, word: string)
    requires ServerId(id) && word == KindName(kind) + "/" && Has(s, i, word) && Has(s, i + |word|, id)
    requires i + |word| + |id| < |s| && s[i + |word| + |id|] == ')'
    ensures ReadTarget(s, i) == Some(Read(Mention(kind, id), i + |word| + |id| + 1))
  {
    WordTaken(s, i, kind, word);
    WithIdIs(s, i + |word|, kind, id);
  }

  lemma WordTaken(s: string, i: nat, kind: MentionType, word: string)
    requires word == KindName(kind) + "/" && Has(s, i, word)
    ensures ReadTarget(s, i) == WithId(s, i + |word|, kind)
  {
    match kind
    case Member =>
      assert word == "member/";
    case Agent =>
      assert word == "agent/";
      DifferAt(s, i, word, "member/", 0);
    case Squad =>
      assert word == "squad/";
      DifferAt(s, i, word, "member/", 0);
      DifferAt(s, i, word, "agent/", 0);
    case Issue =>
      assert word == "issue/";
      DifferAt(s, i, word, "member/", 0);
      DifferAt(s, i, word, "agent/", 0);
      DifferAt(s, i, word, "squad/", 0);
    case All =>
      assert word == "all/";
      DifferAt(s, i, word, "member/", 0);
      DifferAt(s, i, word, "agent/", 1);
      DifferAt(s, i, word, "squad/", 0);
      DifferAt(s, i, word, "issue/", 0);
  }

  /** What follows the label. */
  function Tail(m: Marker): string {
    ANCHOR + (KindName(m.kind) + "/") + (m.id + ")")
  }

  lemma StandsParts(s: string, i: nat, a: string, b: string)
    requires Has(s, i, a + b)
    ensures Has(s, i, a) && Has(s, i + |a|, b)
  {
    forall j | 0 <= j < |a| ensures s[i + j] == a[j] { assert (a + b)[j] == a[j]; }
    forall j | 0 <= j < |b| ensures s[i + |a| + j] == b[j] { assert (a + b)[|a| + j] == b[j]; }
  }

  lemma ReadTailIs(s: string, i: nat, m: Marker)
    requires ServerId(m.id) && Has(s, i, Tail(m))
    ensures Has(s, i, ANCHOR) && ReadTail(s, i) == Some(Read(Mention(m.kind, m.id), i + |Tail(m)|))
  {
    var word := KindName(m.kind) + "/";
    TailStands(s, i, m, word);
    WordThenId(s, i, m.kind, m.id, word);
  }

  lemma WordThenId(s: string, i: nat, kind: MentionType, id: string, word: string)
    requires ServerId(id) && word == KindName(kind) + "/" && Has(s, i, ANCHOR) && Has(s, i + 12, word)
    requires Has(s, i + 12 + |word|, id) && i + 12 + |word| + |id| < |s| && s[i + 12 + |word| + |id|] == ')'
    ensures ReadTail(s, i) == Some(Read(Mention(kind, id), i + 12 + |word| + |id| + 1))
  {
    TailStep(s, i);
    ReadTargetIs(s, i + 12, kind, id, word);
  }

  lemma TailStep(s: string, i: nat)
    requires Has(s, i, ANCHOR)
    ensures Has(s, i, ANCHOR) && ReadTail(s, i) == ReadTarget(s, i + 12)
  {
  }

  lemma TailStands(s: string, i: nat, m: Marker, word: string)
    requires word == KindName(m.kind) + "/" && Has(s, i, Tail(m))
    ensures Has(s, i, ANCHOR) && Has(s, i + 12, word) && Has(s, i + 12 + |word|, m.id)
    ensures i + 12 + |word| + |m.id| < |s| && s[i + 12 + |word| + |m.id|] == ')'
    ensures |Tail(m)| == 12 + |word| + |m.id| + 1
  {
    StandsParts(s, i, ANCHOR + word, m.id + ")");
    StandsParts(s, i, ANCHOR, word);
    StandsParts(s, i + 12 + |word|, m.id, ")");
    assert s[i + 12 + |word| + |m.id| + 0] == ")"[0];
  }

  // ----- reading what is sent -----

  function Shown(m: Marker): string {
    if m.kind == Issue then m.name else "@" + m.name
  }

  /** Main result: what a link says, kind by kind; only an issue is shown without `@`. */
  lemma LinkText(m: Marker)
    ensures m.kind == Member ==> Link(m) == "[@" + m.name + "](mention://member/" + m.id + ")"
    ensures m.kind == Agent ==> Link(m) == "[@" + m.name + "](mention://agent/" + m.id + ")"
    ensures m.kind == Squad ==> Link(m) == "[@" + m.name + "](mention://squad/" + m.id + ")"
    ensures m.kind == All ==> Link(m) == "[@" + m.name + "](mention://all/" + m.id + ")"
    ensures m.kind == Issue ==> Link(m) == "[" + m.name + "](mention://issue/" + m.id + ")"
  {
    assert "[" + ("@" + m.name) == "[@" + m.name;
    assert "](mention://" + "member" + "/" == "](mention://member/";
  }

  lemma LinkParts(m: Marker)
    ensures Link(m) == ("[" + Shown(m)) + Tail(m)
  {
    TailJoined("[" + Shown(m), KindName(m.kind), m.id);
  }

  lemma TailJoined(front: string, word: string, id: string)
    ensures front + ANCHOR + word + "/" + id + ")" == front + (ANCHOR + (word + "/") + (id + ")"))
  {
  }

  /** The text up to the first link, the link, and the rest. */
  lemma {:induction false} FirstLink(text: string, markers: seq<Marker>) returns (p: string, rest: string)
    requires Words(text) == Names(markers) && markers != []
    ensures Words(rest) == Names(markers[1..]) && |rest| < |text| && NoWhite(markers[0].name)
    ensures Render(text, markers, Link).Some? && Render(rest, markers[1..], Link).Some?
    ensures Render(text, markers, Link).value == p + Link(markers[0]) + Render(rest, markers[1..], Link).value
    ensures Strip(text) == p + Strip([SENTINEL] + ("@" + markers[0].name)) + Strip(rest)
    decreases |text|
  {
    LinkedExactly(text, markers, Link);
    if StartsRun(text) {
      var end := WordEnd(text, 2);
      p, rest := "", text[end..];
      SameTail(text[2..end], Words(rest), markers[0].name, Names(markers[1..]));
      LinkedExactly(rest, markers[1..], Link);
      WordEndStops(text, 2);
      RunIsMarked(text, markers[0].name, end);
      StripConcat([SENTINEL] + ("@" + markers[0].name), rest);
      NothingBefore(Link(markers[0]), Render(rest, markers[1..], Link).value);
      NothingBefore(Strip([SENTINEL] + ("@" + markers[0].name)), Strip(rest));
    } else {
      var c := if text[0] == SENTINEL then "" else [text[0]];
      var p', rest' := FirstLink(text[1..], markers);
      p, rest := c + p', rest';
      FourJoined(c, p', Link(markers[0]), Render(rest, markers[1..], Link).value);
      FourJoined(c, p', Strip([SENTINEL] + ("@" + markers[0].name)), Strip(rest));
    }
  }

  lemma RunIsMarked(text: string, name: string, end: nat)
    requires StartsRun(text) && 2 <= end <= |text| && text[2..end] == name
    ensures text == [SENTINEL] + ("@" + name) + text[end..]
  {
  }

  lemma NothingBefore<T>(a: seq<T>, b: seq<T>)
    ensures [] + a + b == a + b
  {
  }

  lemma FourJoined<T>(a: seq<T>, b: seq<T>, c: seq<T>, d: seq<T>)
    ensures a + (b + c + d) == (a + b) + c + d
  {
  }

  /** A marker the server can read: an id it issues, and a name to show. */
  predicate Readable(m: Marker) {
    ServerId(m.id) && m.name != "" && SENTINEL !in m.name && !(m.kind == Issue && m.name == "@")
  }

  ghost predicate AllRead(mentions: seq<Mention>, markers: seq<Marker>) {
    |mentions| == |markers| &&
    forall k :: 0 <= k < |markers| ==> mentions[k].kind == markers[k].kind && mentions[k].id == markers[k].id
  }

  /** Reads the tails of links, and nothing where there is no anchor. */
  ghost predicate ReadsTails(s: string, tail: nat -> Option<Read>) {
    && Fits(s, tail)
    && (forall k: nat :: !Has(s, k, ANCHOR) ==> tail(k) == None)
    && forall k: nat, m: Marker {:trigger Has(s, k, Tail(m))} ::
         ServerId(m.id) && Has(s, k, Tail(m)) ==>
           Has(s, k, ANCHOR) && tail(k) == Some(Read(Mention(m.kind, m.id), k + |Tail(m)|))
  }

  lemma TailsOfReads(s: string)
    ensures ReadsTails(s, TailsOf(s))
  {
    forall k: nat, m: Marker | ServerId(m.id) && Has(s, k, Tail(m))
      ensures Has(s, k, ANCHOR) && TailsOf(s)(k) == Some(Read(Mention(m.kind, m.id), k + |Tail(m)|))
    {
      ReadTailIs(s, k, m);
    }
  }

  /** Where a link stands, and what precedes it holds no anchor, the mention it was made from is read next. */
  lemma LinkRead(s: string, i: nat, p: string, m: Marker, tail: nat -> Option<Read>, next: nat)
    requires Readable(m) && NoWhite(m.name) && NoAnchor(p) && NoAnchor(Shown(m)) && ReadsTails(s, tail)
    requires Has(s, i, p) && Has(s, i + |p|, Link(m)) && next == i + |p| + |Link(m)|
    ensures FindAll(s, i, tail) == [Mention(m.kind, m.id)] + FindAll(s, next, tail)
  {
    LinkStands(s, i + |p|, m);
    PartsRead(s, i, p, m, i + |p|, i + |p| + 1 + |Shown(m)|, tail, next);
  }

  lemma PartsRead(s: string, i: nat, p: string, m: Marker, open: nat, n: nat, tail: nat -> Option<Read>, next: nat)
    requires Readable(m) && NoWhite(m.name) && NoAnchor(p) && NoAnchor(Shown(m)) && ReadsTails(s, tail)
    requires open == i + |p| && n == open + 1 + |Shown(m)| && Has(s, i, p) && Has(s, open + 1, Shown(m))
    requires open < |s| && s[open] == '[' && Has(s, n, Tail(m)) && next == n + |Tail(m)|
    ensures FindAll(s, i, tail) == [Mention(m.kind, m.id)] + FindAll(s, next, tail)
  {
    LinkOpens(s, i, p, m, open, n, tail);
    ReadNext(s, i, open, n, Read(Mention(m.kind, m.id), next), tail);
  }

  lemma ReadNext(s: string, i: nat, open: nat, n: nat, r: Read, tail: nat -> Option<Read>)
    requires Fits(s, tail) && OpensAt(s, i, open, n, tail) && tail(n) == Some(r)
    ensures FindAll(s, i, tail) == [r.mention] + FindAll(s, r.end, tail)
  {
    FirstRead(s, i, open, n, tail);
  }

  lemma LinkStands(s: string, open: nat, m: Marker)
    requires Has(s, open, Link(m))
    ensures open < |s| && s[open] == '[' && Has(s, open + 1, Shown(m)) && Has(s, open + 1 + |Shown(m)|, Tail(m))
    ensures |Link(m)| == 1 + |Shown(m)| + |Tail(m)|
  {
    LinkParts(m);
    StandsParts(s, open, "[" + Shown(m), Tail(m));
    StandsParts(s, open, "[", Shown(m));
    assert s[open + 0] == "["[0];
  }

  lemma LinkOpens(s: string, i: nat, p: string, m: Marker, open: nat, n: nat, tail: nat -> Option<Read>)
    requires Readable(m) && NoWhite(m.name) && NoAnchor(p) && NoAnchor(Shown(m)) && ReadsTails(s, tail)
    requires open == i + |p| && n == open + 1 + |Shown(m)| && Has(s, i, p) && Has(s, open + 1, Shown(m))
    requires open < |s| && s[open] == '[' && Has(s, n, Tail(m))
    ensures OpensAt(s, i, open, n, tail) && tail(n) == Some(Read(Mention(m.kind, m.id), n + |Tail(m)|))
  {
    ShownFits(m);
    assert s[open + 1 + 0] == Shown(m)[0];
    assert Has(s, n, ANCHOR) && tail(n).Some? && s[n + 0] == ANCHOR[0];
    forall k | i <= k < n ensures tail(k) == None { LinkHasOne(s, i, p, Shown(m), n, k); }
    forall k | open <= k < n ensures s[k] != '\n' {
      if k > open { assert s[open + 1 + (k - open - 1)] == Shown(m)[k - open - 1]; }
    }
  }

  lemma ShownFits(m: Marker)
    requires Readable(m) && NoWhite(m.name)
    ensures Shown(m) != "" && (Shown(m)[0] == '@' ==> |Shown(m)| > 1)
    ensures forall k :: 0 <= k < |Shown(m)| ==> Shown(m)[k] != '\n'
  {
    assert IsWhite('\n') && !IsWhite('@');
    forall k | 0 <= k < |Shown(m)| ensures !IsWhite(Shown(m)[k]) {
      if m.kind != Issue && k > 0 { assert Shown(m)[k] == m.name[k - 1]; }
    }
  }

  /** Main result: of text whose mentions are linked, and that holds no link of the writer's own, the server reads just
      the markers' types and ids, in order. */
  lemma ServerReadsMarkers(text: string, markers: seq<Marker>)
    requires Words(text) == Names(markers) && NoAnchor(Strip(text))
    requires forall k :: 0 <= k < |markers| ==> Readable(markers[k])
    ensures AllRead(ReadAll(Serialize(text, markers)), markers)
  {
    LinkedExactly(text, markers, Link);
    PlainSerialize(text, markers);
    var s := Serialize(text, markers);
    assert forall j :: 0 <= j < |s| ==> s[0 + j] == s[j];
    TailsOfReads(s);
    ReadRendered(s, 0, text, markers, s, TailsOf(s));
  }

  lemma {:induction false} ReadRendered(s: string, i: nat, text: string, markers: seq<Marker>, out: string,
                                        tail: nat -> Option<Read>)
    requires Words(text) == Names(markers) && NoAnchor(Strip(text)) && Render(text, markers, Link) == Some(out)
    requires forall k :: 0 <= k < |markers| ==> Readable(markers[k])
    requires ReadsTails(s, tail) && Has(s, i, out) && i + |out| == |s|
    ensures AllRead(FindAll(s, i, tail), markers)
    decreases |markers|
  {
    if markers == [] {
      RenderNone(text);
      NoneStand(s, i, out, tail);
      NothingRead(s, i, tail);
    } else {
      var p, rest, r := FirstPart(text, markers, out);
      StandsThree(s, i, p, Link(markers[0]), r, out);
      var next := i + |p| + |Link(markers[0])|;
      LinkRead(s, i, p, markers[0], tail, next);
      ReadRendered(s, next, rest, markers[1..], r, tail);
      ReadThenRest(Mention(markers[0].kind, markers[0].id), FindAll(s, next, tail), markers);
    }
  }

  lemma FirstPart(text: string, markers: seq<Marker>, out: string) returns (p: string, rest: string, r: string)
    requires Words(text) == Names(markers) && NoAnchor(Strip(text)) && Render(text, markers, Link) == Some(out)
    requires markers != [] && Readable(markers[0])
    ensures Words(rest) == Names(markers[1..]) && NoAnchor(Strip(rest)) && Render(rest, markers[1..], Link) == Some(r)
    ensures out == p + Link(markers[0]) + r
    ensures NoWhite(markers[0].name) && NoAnchor(p) && NoAnchor(Shown(markers[0]))
  {
    p, rest := FirstLink(text, markers);
    r := Render(rest, markers[1..], Link).value;
    StripMarked(markers[0].name);
    PartsHaveNone(p, markers[0], Strip(rest));
  }

  lemma ReadThenRest(first: Mention, rest: seq<Mention>, markers: seq<Marker>)
    requires markers != [] && first == Mention(markers[0].kind, markers[0].id) && AllRead(rest, markers[1..])
    ensures AllRead([first] + rest, markers)
  {
  }

  lemma StandsThree(s: string, i: nat, p: string, l: string, r: string, whole: string)
    requires whole == p + l + r && Has(s, i, whole) && i + |whole| == |s|
    ensures Has(s, i, p) && Has(s, i + |p|, l) && Has(s, i + |p| + |l|, r) && i + |p| + |l| + |r| == |s|
  {
    StandsParts(s, i, p + l, r);
    StandsParts(s, i, p, l);
  }

  lemma NoneStand(s: string, i: nat, plain: string, tail: nat -> Option<Read>)
    requires NoAnchor(plain) && Has(s, i, plain) && i + |plain| == |s| && ReadsTails(s, tail)
    ensures forall k :: i <= k <= |s| ==> tail(k) == None
  {
    forall k | i <= k <= |s| ensures tail(k) == None {
      if k + 12 <= |s| { NoneWithin(s, k, plain, k - i); }
      assert !Has(s, k, ANCHOR);
    }
  }

  lemma PartsHaveNone(p: string, m: Marker, rest: string)
    requires NoAnchor(p + ("@" + m.name) + rest)
    ensures NoAnchor(p) && NoAnchor(Shown(m)) && NoAnchor(rest)
  {
    assert "" + p + (("@" + m.name) + rest) == p + ("@" + m.name) + rest;
    PartHasNone("", p, ("@" + m.name) + rest);
    PartHasNone(p, "@" + m.name, rest);
    assert (p + ("@" + m.name)) + rest + "" == p + ("@" + m.name) + rest;
    PartHasNone(p + ("@" + m.name), rest, "");
    assert "@" + m.name + "" == "@" + m.name;
    PartHasNone("@", m.name, "");
  }

  lemma {:induction false} RenderNone(text: string)
    requires Words(text) == Names([])
    ensures Render(text, [], Link) == Some(Strip(text))
    decreases |text|
  {
    if text != "" && !StartsRun(text) { RenderNone(text[1..]); }
  }
}
