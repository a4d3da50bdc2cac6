/** The event log of a task: turns, and rows overwritten by their answers. */
module EventCollapse {
  import opened Optional

  // The event log of a task as it is listed: each event is put into a turn, and a PreToolUse row is overwritten by the
  // PostToolUse event that answers it.

  datatype Kind = Pre | Post | Other(name: string)

  datatype Event = Event(id: nat, kind: Kind, at: int, summary: string, tool: string)

  datatype Row = Row(id: nat, kind: Kind, at: int, summary: string, turn: Option<int>)

  /** A row, and the tool its event is about. */
  datatype Item = Item(row: Row, tool: string)

  datatype Key = Key(turn: Option<int>, tool: string)

  function KeyOf(e: Item): Key {
    Key(e.row.turn, e.tool)
  }

  // ----- turns -----

  datatype Turn = Turn(num: int, startedAt: int)

  /** From `start` up to, not including, `end`; the last one is open. */
  datatype Window = Window(num: int, start: int, end: Option<int>)

  predicate Within(at: int, w: Window) {
    at >= w.start && (w.end.None? || at < w.end.value)
  }

  /** A turn lasts until the next one starts. */
  function WindowOf(turns: seq<Turn>, i: nat): Window
    requires i < |turns|
  {
    Window(turns[i].num, turns[i].startedAt, if i + 1 < |turns| then Some(turns[i + 1].startedAt) else None)
  }

  predicate Consecutive(turns: seq<Turn>, ws: seq<Window>) {
    |ws| == |turns| && forall i :: 0 <= i < |turns| ==> ws[i] == WindowOf(turns, i)
  }

  method Windows(turns: seq<Turn>) returns (ws: seq<Window>)
    ensures Consecutive(turns, ws)
  {
    ws := [];
    for i := 0 to |turns|
      invariant |ws| == i && forall k :: 0 <= k < i ==> ws[k] == WindowOf(turns, k)
    {
      ws := ws + [WindowOf(turns, i)];
    }
  }

  function TurnAt(at: int, ws: seq<Window>): Option<int> {
    if ws == [] then None else if Within(at, ws[0]) then Some(ws[0].num) else TurnAt(at, ws[1..])
  }

  method FindTurn(at: int, ws: seq<Window>) returns (turn: Option<int>)
    ensures turn == TurnAt(at, ws)
  {
    turn := None;
    var i := 0;
    assert ws[0..] == ws;
    while i < |ws|
      invariant i <= |ws| && turn.None? && TurnAt(at, ws) == TurnAt(at, ws[i..])
    {
      assert ws[i..][1..] == ws[i + 1..];
      if Within(at, ws[i]) {
        return Some(ws[i].num);
      }
      i := i + 1;
    }
    assert ws[i..] == [];
  }

  lemma {:induction false} FirstWithin(at: int, ws: seq<Window>, i: nat)
    requires i < |ws| && Within(at, ws[i]) && forall k :: 0 <= k < i ==> !Within(at, ws[k])
    ensures TurnAt(at, ws) == Some(ws[i].num)
  {
    if i > 0 {
      FirstWithin(at, ws[1..], i - 1);
    }
  }

  /** When turns start one after another, an event belongs to the last turn that has started. */
  lemma InLastStartedTurn(at: int, turns: seq<Turn>, ws: seq<Window>, i: nat)
    requires Consecutive(turns, ws) && i < |turns| && turns[i].startedAt <= at
    requires i + 1 < |turns| ==> at < turns[i + 1].startedAt
    requires forall j, k :: 0 <= j < k < |turns| ==> turns[j].startedAt <= turns[k].startedAt
    ensures TurnAt(at, ws) == Some(turns[i].num)
  {
    forall k | 0 <= k < i ensures !Within(at, ws[k]) {
      assert turns[k + 1].startedAt <= at by { assert k + 1 == i || turns[k + 1].startedAt <= turns[i].startedAt; }
    }
    FirstWithin(at, ws, i);
  }

  function ItemOf(e: Event, ws: seq<Window>): Item {
    Item(Row(e.id, e.kind, e.at, e.summary, TurnAt(e.at, ws)), e.tool)
  }

  // ----- which Post answers which Pre -----

  predicate IsPre(e: Item, k: Key) {
    e.row.kind == Pre && KeyOf(e) == k
  }

  predicate IsPost(e: Item, k: Key) {
    e.row.kind == Post && KeyOf(e) == k
  }

  /** How many Pre events of `k` are among the first `n`. */
  function Pres(es: seq<Item>, k: Key, n: nat): nat
    requires n <= |es|
  {
    if n == 0 then 0 else Pres(es, k, n - 1) + if IsPre(es[n - 1], k) then 1 else 0
  }

  /** How many Post events of `k` among the first `n` found an unmatched Pre. */
  function Matches(es: seq<Item>, k: Key, n: nat): nat
    requires n <= |es|
  {
    if n == 0 then 0
    else Matches(es, k, n - 1) +
         if IsPost(es[n - 1], k) && Matches(es, k, n - 1) < Pres(es, k, n - 1) then 1 else 0
  }

  predicate Matched(es: seq<Item>, i: nat)
    requires i < |es|
  {
    es[i].row.kind == Post && Matches(es, KeyOf(es[i]), i) < Pres(es, KeyOf(es[i]), i)
  }

  /** The Post at `i` answers the Pre at `j`: as many of its key were matched before `i` as there are Pre before `j`. */
  predicate Pairs(es: seq<Item>, j: nat, i: nat)
    requires j < |es| && i < |es|
  {
    var k := KeyOf(es[i]);
    j < i && IsPre(es[j], k) && Matched(es, i) && Pres(es, k, j) == Matches(es, k, i)
  }

  /** What the row that event `j` opened shows after `n` events. */
  function Shown(es: seq<Item>, j: nat, n: nat): Row
    requires j < n <= |es|
    decreases n
  {
    if n == j + 1 then es[j].row
    else if Pairs(es, j, n - 1) then es[n - 1].row
    else Shown(es, j, n - 1)
  }

  /** The events that open a row, in order. */
  function Opened(es: seq<Item>, n: nat): (js: seq<nat>)
    requires n <= |es|
    ensures forall r :: 0 <= r < |js| ==> js[r] < n
  {
    if n == 0 then []
    else if Matched(es, n - 1) then Opened(es, n - 1)
    else Opened(es, n - 1) + [n - 1]
  }

  lemma {:induction false} OpenedAt(es: seq<Item>, n: nat)
    requires n <= |es|
    ensures forall r :: 0 <= r < |Opened(es, n)| ==> Opened(es, n)[r] < n && !Matched(es, Opened(es, n)[r])
    ensures forall r, s :: 0 <= r < s < |Opened(es, n)| ==> Opened(es, n)[r] < Opened(es, n)[s]
    ensures forall j :: 0 <= j < n && !Matched(es, j) ==> j in Opened(es, n)
  {
    if n > 0 {
      OpenedAt(es, n - 1);
    }
  }

  // ----- counting -----

  lemma {:induction false} PresGrow(es: seq<Item>, k: Key, a: nat, b: nat)
    requires a <= b <= |es|
    ensures Pres(es, k, a) <= Pres(es, k, b)
    ensures a < b && IsPre(es[a], k) ==> Pres(es, k, a) < Pres(es, k, b)
    decreases b
  {
    if a < b {
      PresGrow(es, k, a, b - 1);
    }
  }

  lemma {:induction false} MatchesGrow(es: seq<Item>, k: Key, a: nat, b: nat)
    requires a <= b <= |es|
    ensures Matches(es, k, a) <= Matches(es, k, b)
    ensures a < b && IsPost(es[a], k) && Matched(es, a) ==> Matches(es, k, a) < Matches(es, k, b)
    decreases b
  {
    if a < b {
      MatchesGrow(es, k, a, b - 1);
    }
  }

  lemma {:induction false} MatchesWithinPres(es: seq<Item>, k: Key, n: nat)
    requires n <= |es|
    ensures Matches(es, k, n) <= Pres(es, k, n)
  {
    if n > 0 {
      MatchesWithinPres(es, k, n - 1);
    }
  }

  /** The Pre event that has exactly `c` of its key before it. */
  lemma {:induction false} PreWithCount(es: seq<Item>, k: Key, n: nat, c: nat) returns (j: nat)
    requires n <= |es| && c < Pres(es, k, n)
    ensures j < n && IsPre(es[j], k) && Pres(es, k, j) == c
  {
    if Pres(es, k, n - 1) == c {
      j := n - 1;
    } else {
      j := PreWithCount(es, k, n - 1, c);
    }
  }

  /** The Post event that was matched when exactly `c` of its key had been. */
  lemma {:induction false} PostWithCount(es: seq<Item>, k: Key, n: nat, c: nat) returns (i: nat)
    requires n <= |es| && c < Matches(es, k, n)
    ensures i < n && IsPost(es[i], k) && Matched(es, i) && Matches(es, k, i) == c
  {
    if Matches(es, k, n - 1) == c {
      i := n - 1;
    } else {
      i := PostWithCount(es, k, n - 1, c);
    }
  }

  // ----- the pairing is first in, first out -----

  lemma OneToOne(es: seq<Item>, j: nat, i: nat, j': nat, i': nat)
    requires j < |es| && i < |es| && j' < |es| && i' < |es| && Pairs(es, j, i) && Pairs(es, j', i')
    ensures j == j' <==> i == i'
  {
    var k := KeyOf(es[i]);
    if i == i' {
      if j < j' { PresGrow(es, k, j, j'); } else { PresGrow(es, k, j', j); }
    } else if j == j' {
      if i < i' { MatchesGrow(es, k, i, i'); } else { MatchesGrow(es, k, i', i); }
    }
  }

  /** A matched Post answers exactly one Pre. */
  lemma MatchedHasPartner(es: seq<Item>, i: nat) returns (j: nat)
    requires i < |es| && Matched(es, i)
    ensures j < i && Pairs(es, j, i)
  {
    j := PreWithCount(es, KeyOf(es[i]), i, Matches(es, KeyOf(es[i]), i));
  }

  /** No Post before `n` answers the Pre at `j`. */
  predicate Open(es: seq<Item>, j: nat, n: nat)
    requires j < |es| && n <= |es|
  {
    forall i :: 0 <= i < n ==> !Pairs(es, j, i)
  }

  lemma OpenByCount(es: seq<Item>, k: Key, j: nat, n: nat)
    requires j < n <= |es| && IsPre(es[j], k)
    ensures Open(es, j, n) <==> Matches(es, k, n) <= Pres(es, k, j)
  {
    if Pres(es, k, j) < Matches(es, k, n) {
      var i := PostWithCount(es, k, n, Pres(es, k, j));
      if i <= j {
        MatchesWithinPres(es, k, i);
        PresGrow(es, k, i, j);
      }
      assert i > j by { if i <= j { AllMatchedEarlier(es, k, i, j); } }
      assert Pairs(es, j, i);
    } else {
      forall i | 0 <= i < n ensures !Pairs(es, j, i) {
        MatchesGrow(es, k, i, n);
      }
    }
  }

  /** A Post matched at or before `j` answers a Pre strictly before `j`. */
  lemma AllMatchedEarlier(es: seq<Item>, k: Key, i: nat, j: nat)
    requires i <= j < |es| && IsPost(es[i], k) && Matched(es, i)
    ensures Matches(es, k, i) < Pres(es, k, j)
  {
    PresGrow(es, k, i, j);
  }

  /** The oldest Pre of `k` before `i` that is still open at `i`. */
  predicate OldestOpen(es: seq<Item>, k: Key, j: nat, i: nat)
    requires j < i <= |es|
  {
    IsPre(es[j], k) && Open(es, j, i) && forall h :: 0 <= h < j && IsPre(es[h], k) ==> !Open(es, h, i)
  }

  /** Main result: a Post answers a Pre exactly when that Pre is the oldest unanswered one of the same turn and tool. */
  lemma AnswersOldestOpen(es: seq<Item>, j: nat, i: nat)
    requires j < i < |es| && es[i].row.kind == Post
    ensures Pairs(es, j, i) <==> OldestOpen(es, KeyOf(es[i]), j, i)
  {
    var k := KeyOf(es[i]);
    if Pairs(es, j, i) {
      OpenByCount(es, k, j, i);
      forall h | 0 <= h < j && IsPre(es[h], k) ensures !Open(es, h, i) {
        PresGrow(es, k, h, j);
        OpenByCount(es, k, h, i);
      }
    } else if OldestOpen(es, k, j, i) {
      OpenByCount(es, k, j, i);
      PresGrow(es, k, j, i);
      var h := PreWithCount(es, k, i, Matches(es, k, i));
      OpenByCount(es, k, h, i);
      if h > j { PresGrow(es, k, j, h); }
      if h < j { assert false; }
    }
  }

  /** A Post stays a row of its own exactly when no earlier Pre of its turn and tool is open. */
  lemma UnmatchedExactly(es: seq<Item>, i: nat)
    requires i < |es| && es[i].row.kind == Post
    ensures !Matched(es, i) <==> forall j :: 0 <= j < i && IsPre(es[j], KeyOf(es[i])) ==> !Open(es, j, i)
  {
    var k := KeyOf(es[i]);
    if Matched(es, i) {
      var j := MatchedHasPartner(es, i);
      OpenByCount(es, k, j, i);
    } else {
      forall j | 0 <= j < i && IsPre(es[j], k) ensures !Open(es, j, i) {
        PresGrow(es, k, j, i);
        OpenByCount(es, k, j, i);
      }
    }
  }

  // ----- the listing -----

  lemma {:induction false} ShownWhileOpen(es: seq<Item>, j: nat, n: nat)
    requires j < n <= |es| && Open(es, j, n)
    ensures Shown(es, j, n) == es[j].row
    decreases n
  {
    if n > j + 1 {
      ShownWhileOpen(es, j, n - 1);
    }
  }

  lemma {:induction false} ShownAnswer(es: seq<Item>, j: nat, i: nat, n: nat)
    requires j < n <= |es| && i < n && Pairs(es, j, i)
    ensures Shown(es, j, n) == es[i].row
    decreases n
  {
    if i < n - 1 {
      if Pairs(es, j, n - 1) {
        OneToOne(es, j, i, j, n - 1);
      }
      ShownAnswer(es, j, i, n - 1);
    }
  }

  /** The listing: one row per event that opened one, in order. */
  predicate Lists(es: seq<Item>, n: nat, rows: seq<Row>)
    requires n <= |es|
  {
    && |rows| == |Opened(es, n)|
    && forall r :: 0 <= r < |rows| ==> rows[r] == Shown(es, Opened(es, n)[r], n)
  }

  function TotalMatches(es: seq<Item>, n: nat): nat
    requires n <= |es|
  {
    if n == 0 then 0 else TotalMatches(es, n - 1) + if Matched(es, n - 1) then 1 else 0
  }

  /** One row less for each match. */
  lemma {:induction false} RowCount(es: seq<Item>, n: nat)
    requires n <= |es|
    ensures |Opened(es, n)| + TotalMatches(es, n) == n
  {
    if n > 0 {
      RowCount(es, n - 1);
    }
  }

  /** Main result: every event is shown by exactly one row, unless it is a Pre that was answered, and then its row shows
      the answer. */
  lemma ShownOrAnswered(es: seq<Item>, rows: seq<Row>, i: nat) returns (r: nat)
    requires Lists(es, |es|, rows) && i < |es|
    ensures r < |rows|
    ensures Open(es, i, |es|) ==> rows[r] == es[i].row
    ensures !Open(es, i, |es|) ==> exists p :: i < p < |es| && Pairs(es, i, p) && rows[r] == es[p].row
  {
    OpenedAt(es, |es|);
    var opener := i;
    if Matched(es, i) {
      opener := MatchedHasPartner(es, i);
      ShownAnswer(es, opener, i, |es|);
      assert es[opener].row.kind == Pre && es[i].row.kind == Post;
      assert Open(es, i, |es|);
    } else if Open(es, i, |es|) {
      ShownWhileOpen(es, i, |es|);
    } else {
      var p :| 0 <= p < |es| && Pairs(es, i, p);
      ShownAnswer(es, i, p, |es|);
    }
    assert !Matched(es, opener);
    r :| 0 <= r < |rows| && Opened(es, |es|)[r] == opener;
  }

  // ----- the program -----

  function Queued(pending: map<Key, seq<nat>>, k: Key): seq<nat> {
    if k in pending then pending[k] else []
  }

  /** The indices queued for `k` are the rows of its open Pre events, oldest first. */
  predicate Tracks(es: seq<Item>, n: nat, k: Key, queue: seq<nat>)
    requires n <= |es|
  {
    && Matches(es, k, n) + |queue| == Pres(es, k, n)
    && forall t :: 0 <= t < |queue| ==>
         && queue[t] < |Opened(es, n)|
         && IsPre(es[Opened(es, n)[queue[t]]], k)
         && Pres(es, k, Opened(es, n)[queue[t]]) == Matches(es, k, n) + t
  }

  lemma TracksKeep(es: seq<Item>, n: nat, k: Key, queue: seq<nat>)
    requires n < |es| && Tracks(es, n, k, queue)
    requires !IsPre(es[n], k) && !(IsPost(es[n], k) && Matched(es, n))
    ensures Tracks(es, n + 1, k, queue)
  {
  }

  lemma TracksPush(es: seq<Item>, n: nat, k: Key, queue: seq<nat>)
    requires n < |es| && Tracks(es, n, k, queue) && IsPre(es[n], k)
    ensures Tracks(es, n + 1, k, queue + [|Opened(es, n)|])
  {
  }

  lemma TracksPop(es: seq<Item>, n: nat, k: Key, queue: seq<nat>)
    requires n < |es| && Tracks(es, n, k, queue) && IsPost(es[n], k) && queue != []
    ensures Matched(es, n) && Pairs(es, Opened(es, n)[queue[0]], n)
    ensures Tracks(es, n + 1, k, queue[1..])
  {
  }

  lemma ListsAppend(es: seq<Item>, n: nat, rows: seq<Row>)
    requires n < |es| && Lists(es, n, rows) && !Matched(es, n)
    ensures Lists(es, n + 1, rows + [es[n].row])
  {
    forall r | 0 <= r < |rows| ensures rows[r] == Shown(es, Opened(es, n + 1)[r], n + 1) {
      assert !Pairs(es, Opened(es, n)[r], n);
    }
  }

  lemma ListsOverwrite(es: seq<Item>, n: nat, rows: seq<Row>, at: nat)
    requires n < |es| && Lists(es, n, rows) && at < |rows| && Pairs(es, Opened(es, n)[at], n)
    ensures Lists(es, n + 1, rows[at := es[n].row])
  {
    OpenedAt(es, n);
    forall r | 0 <= r < |rows| && r != at ensures !Pairs(es, Opened(es, n)[r], n) {
      if Pairs(es, Opened(es, n)[r], n) {
        OneToOne(es, Opened(es, n)[r], n, Opened(es, n)[at], n);
      }
    }
  }

  ghost predicate TracksAll(es: seq<Item>, n: nat, pending: map<Key, seq<nat>>)
    requires n <= |es|
  {
    forall k :: Tracks(es, n, k, Queued(pending, k))
  }

  /** Main result: the queued indices always point at unanswered Pre rows of their key, in increasing order. */
  lemma QueuedAreOpen(es: seq<Item>, n: nat, k: Key, queue: seq<nat>, t: nat)
    requires n <= |es| && Tracks(es, n, k, queue) && t < |queue|
    ensures Open(es, Opened(es, n)[queue[t]], n) && Shown(es, Opened(es, n)[queue[t]], n).kind == Pre
    ensures t + 1 < |queue| ==> queue[t] < queue[t + 1]
  {
    var j := Opened(es, n)[queue[t]];
    OpenByCount(es, k, j, n);
    ShownWhileOpen(es, j, n);
    if t + 1 < |queue| {
      OpenedAt(es, n);
      var h := Opened(es, n)[queue[t + 1]];
      if h <= j { PresGrow(es, k, h, j); }
    }
  }

  /** An event that is no Pre and answers none changes nothing. */
  lemma AllKeep(es: seq<Item>, n: nat, pending: map<Key, seq<nat>>)
    requires n < |es| && TracksAll(es, n, pending) && es[n].row.kind != Pre && !Matched(es, n)
    ensures TracksAll(es, n + 1, pending)
  {
    forall k ensures Tracks(es, n + 1, k, Queued(pending, k)) {
      TracksKeep(es, n, k, Queued(pending, k));
    }
  }

  method Collapse(es: seq<Item>) returns (rows: seq<Row>, pending: map<Key, seq<nat>>)
    ensures Lists(es, |es|, rows) && TracksAll(es, |es|, pending)
  {
    rows, pending := [], map[];
    for n := 0 to |es|
      invariant Lists(es, n, rows) && TracksAll(es, n, pending)
    {
      var k := KeyOf(es[n]);
      var queue := Queued(pending, k);
      assert Tracks(es, n, k, queue);
      if es[n].row.kind == Post && queue != [] {
        TracksPop(es, n, k, queue);
        ListsOverwrite(es, n, rows, queue[0]);
        OthersKeep(es, n, pending, queue[1..]);
        rows := rows[queue[0] := es[n].row];
        pending := pending[k := queue[1..]];
        continue;
      }
      assert !Matched(es, n);
      ListsAppend(es, n, rows);
      rows := rows + [es[n].row];
      if es[n].row.kind == Pre {
        TracksPush(es, n, k, queue);
        OthersKeep(es, n, pending, queue + [|rows| - 1]);
        pending := pending[k := queue + [|rows| - 1]];
      } else {
        AllKeep(es, n, pending);
      }
    }
  }

  /** An event changes nothing for other turns and tools. */
  lemma OthersKeep(es: seq<Item>, n: nat, pending: map<Key, seq<nat>>, queue: seq<nat>)
    requires n < |es| && TracksAll(es, n, pending) && Tracks(es, n + 1, KeyOf(es[n]), queue)
    ensures TracksAll(es, n + 1, pending[KeyOf(es[n]) := queue])
  {
    var after := pending[KeyOf(es[n]) := queue];
    forall k ensures Tracks(es, n + 1, k, Queued(after, k)) {
      if k != KeyOf(es[n]) {
        TracksKeep(es, n, k, Queued(pending, k));
      }
    }
  }

  function WindowsOf(turns: seq<Turn>): seq<Window> {
    seq(|turns|, i requires 0 <= i < |turns| => WindowOf(turns, i))
  }

  function ItemsOf(events: seq<Event>, ws: seq<Window>): seq<Item> {
    seq(|events|, i requires 0 <= i < |events| => ItemOf(events[i], ws))
  }

  /** The whole listing. */
  method ListEvents(turns: seq<Turn>, events: seq<Event>) returns (rows: seq<Row>)
    ensures |ItemsOf(events, WindowsOf(turns))| == |events| && Lists(ItemsOf(events, WindowsOf(turns)), |events|, rows)
  {
    var windows := Windows(turns);
    assert windows == WindowsOf(turns);
    var items: seq<Item> := [];
    for i := 0 to |events|
      invariant |items| == i && forall k :: 0 <= k < i ==> items[k] == ItemOf(events[k], windows)
    {
      var turn := FindTurn(events[i].at, windows);
      items := items + [Item(Row(events[i].id, events[i].kind, events[i].at, events[i].summary, turn), events[i].tool)];
    }
    assert items == ItemsOf(events, windows);
    var listing, pending := Collapse(items);
    rows := listing;
  }

  // ----- how many are left running -----

  function Posts(es: seq<Item>, k: Key, n: nat): nat
    requires n <= |es|
  {
    if n == 0 then 0 else Posts(es, k, n - 1) + if IsPost(es[n - 1], k) then 1 else 0
  }

  /** Main result: the matches are as many as the order of events allows: at every cut, at most the Pre events before it
      and the Post events after it, with equality at some cut. */
  lemma {:induction false} MatchesAreMost(es: seq<Item>, k: Key, n: nat) returns (cut: nat)
    requires n <= |es|
    ensures cut <= n && Matches(es, k, n) == Pres(es, k, cut) + Posts(es, k, n) - Posts(es, k, cut)
    ensures forall c :: 0 <= c <= n ==> Matches(es, k, n) <= Pres(es, k, c) + Posts(es, k, n) - Posts(es, k, c)
  {
    if n == 0 {
      cut := 0;
    } else {
      cut := MatchesAreMost(es, k, n - 1);
      MatchesWithinPres(es, k, n);
      if Matches(es, k, n - 1) == Pres(es, k, n - 1) && IsPost(es[n - 1], k) {
        cut := n;
      }
    }
  }
}
