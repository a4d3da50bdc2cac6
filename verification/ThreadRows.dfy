/** The rows of the timeline. */
module ThreadRows {
  import opened Optional
  import opened Threads

  // The rows of the timeline, and the promise that no loaded entry is lost or shown twice.

  /** One row per top-level entry, in order; a comment's row bundles its thread. */
  ghost predicate AreRows(entries: seq<Entry>, top: seq<Entry>, rows: seq<Row>) {
    && |rows| == |top|
    && forall k :: 0 <= k < |rows| ==> IsRow(entries, top[k], rows[k])
  }

  ghost predicate IsRow(entries: seq<Entry>, e: Entry, row: Row) {
    row.entry == e && if e.isComment then IsBundle(entries, e, row.replies) else row.replies == []
  }

  lemma {:induction false} TopLevelAre(entries: seq<Entry>, part: seq<Entry>)
    ensures forall e :: e in TopLevel(entries, part) <==> e in part && !IsReply(entries, e)
  {
    if part != [] {
      var n := |part| - 1;
      TopLevelAre(entries, part[..n]);
      assert part == part[..n] + [part[n]];
    }
  }

  /** children[id] holds the replies to `id` among `part`. */
  ghost predicate Groups(entries: seq<Entry>, part: seq<Entry>, children: map<Id, seq<Entry>>) {
    forall id :: Kids(entries, part, id) == if id in children then children[id] else []
  }

  lemma GroupOne(entries: seq<Entry>, part: seq<Entry>, e: Entry, children: map<Id, seq<Entry>>)
    requires Groups(entries, part, children)
    ensures IsReply(entries, e) ==>
              var id := e.parent.value;
              Groups(entries, part + [e], children[id := (if id in children then children[id] else []) + [e]])
    ensures !IsReply(entries, e) ==> Groups(entries, part + [e], children)
  {
    assert (part + [e])[..|part|] == part;
    forall id: Id
      ensures Kids(entries, part + [e], id) ==
              Kids(entries, part, id) + if IsReply(entries, e) && e.parent == Some(id) then [e] else []
    {
    }
  }

  method BuildTimelineRows(entries: seq<Entry>) returns (rows: seq<Row>)
    requires WalksEnd(entries)
    ensures AreRows(entries, TopLevel(entries, entries), rows)
  {
    var commentIds: set<Id> := {};
    for k := 0 to |entries|
      invariant commentIds == CommentIds(entries[..k])
    {
      assert entries[..k + 1][..k] == entries[..k];
      if entries[k].isComment {
        commentIds := commentIds + {entries[k].id};
      }
    }
    assert entries[..|entries|] == entries;
    var topLevel, children := Partition(entries, commentIds);
    rows := MakeRows(entries, topLevel, children);
  }

  method MakeRows(entries: seq<Entry>, topLevel: seq<Entry>, children: map<Id, seq<Entry>>) returns (rows: seq<Row>)
    requires WalksEnd(entries) && topLevel == TopLevel(entries, entries) && Groups(entries, entries, children)
    ensures AreRows(entries, topLevel, rows)
  {
    rows := [];
    for k := 0 to |topLevel|
      invariant |rows| == k && forall i :: 0 <= i < k ==> IsRow(entries, topLevel[i], rows[i])
    {
      TopLevelRoot(entries, k);
      var row := MakeRow(entries, topLevel[k], children);
      rows := rows + [row];
    }
  }

  method MakeRow(entries: seq<Entry>, entry: Entry, children: map<Id, seq<Entry>>) returns (row: Row)
    requires WalksEnd(entries) && Groups(entries, entries, children) && entry in entries && !IsReply(entries, entry)
    ensures IsRow(entries, entry, row)
  {
    var replies: seq<Entry> := [];
    if entry.isComment {
      replies := CollectDescendants(entries, children, entry);
    }
    row := Row(entry, replies);
  }

  lemma TopLevelRoot(entries: seq<Entry>, k: nat)
    requires k < |TopLevel(entries, entries)|
    ensures var e := TopLevel(entries, entries)[k]; e in entries && !IsReply(entries, e)
  {
    TopLevelAre(entries, entries);
    assert TopLevel(entries, entries)[k] in TopLevel(entries, entries);
  }

  method Partition(entries: seq<Entry>, commentIds: set<Id>)
    returns (topLevel: seq<Entry>, children: map<Id, seq<Entry>>)
    requires commentIds == CommentIds(entries)
    ensures topLevel == TopLevel(entries, entries) && Groups(entries, entries, children)
  {
    topLevel, children := [], map[];
    for k := 0 to |entries|
      invariant topLevel == TopLevel(entries, entries[..k]) && Groups(entries, entries[..k], children)
    {
      var e := entries[k];
      assert entries[..k + 1] == entries[..k] + [e];
      GroupOne(entries, entries[..k], e, children);
      if e.isComment && e.parent.Some? && e.parent.value in commentIds {
        var id := e.parent.value;
        var list := if id in children then children[id] else [];
        children := children[id := list + [e]];
      } else {
        topLevel := topLevel + [e];
      }
    }
    assert entries[..|entries|] == entries;
  }

  // ----- each entry in exactly one place -----

  function Flatten(rows: seq<Row>): seq<Entry> {
    if rows == [] then []
    else
      var n := |rows| - 1;
      Flatten(rows[..n]) + [rows[n].entry] + rows[n].replies
  }

  /** The chain of parents from an entry never reaches two different top-level entries. */
  lemma {:induction false} OneRoot(entries: seq<Entry>, e: Entry, n: nat, m: nat, r: Entry, s: Entry)
    requires Up(entries, e, n) == Some(r) && Up(entries, e, m) == Some(s)
    requires !IsReply(entries, r) && !IsReply(entries, s)
    ensures r == s
    decreases n
  {
    if n > 0 && m > 0 {
      OneRoot(entries, ParentOf(entries, e).value, n - 1, m - 1, r, s);
    }
  }

  lemma {:induction false} ChainInside(entries: seq<Entry>, e: Entry, n: nat)
    requires e in entries && Up(entries, e, n).Some?
    ensures Up(entries, e, n).value in entries && (n > 0 ==> Up(entries, e, n).value.isComment)
    decreases n
  {
    if n > 0 {
      assert ParentOf(entries, e).Some?;
      ReplyHasParent(entries, e);
      ChainInside(entries, ParentOf(entries, e).value, n - 1);
    }
  }

  lemma BundleAreReplies(entries: seq<Entry>, root: Entry, out: seq<Entry>)
    requires UniqueIds(entries) && IsRoot(entries, root) && IsBundle(entries, root, out)
    ensures forall x :: x in out ==> IsReply(entries, x)
  {
    forall x | x in out ensures IsReply(entries, x) {
      var k :| 0 <= k < |out| && out[k] == x;
      var j := BundleParent(entries, root, out, k);
    }
  }

  /** How often a row shows an entry. */
  lemma RowShows(entries: seq<Entry>, e: Entry, row: Row, x: Entry)
    requires UniqueIds(entries) && e in entries && !IsReply(entries, e) && IsRow(entries, e, row) && x in entries
    ensures multiset([row.entry] + row.replies)[x] ==
            if IsReply(entries, x) then (if e.isComment && Under(entries, x, e) then 1 else 0)
            else (if x == e then 1 else 0)
  {
    if e.isComment {
      BundleIsSubtree(entries, e, row.replies);
      if IsReply(entries, x) {
        CountOnce(row.replies, x);
      } else {
        BundleAreReplies(entries, e, row.replies);
      }
    }
  }

  lemma {:induction false} CountOnce(s: seq<Entry>, x: Entry)
    requires forall j, k :: 0 <= j < k < |s| ==> s[j] != s[k]
    ensures multiset(s)[x] == if x in s then 1 else 0
  {
    if s != [] {
      var n := |s| - 1;
      CountOnce(s[..n], x);
      assert s == s[..n] + [s[n]];
    }
  }

  ghost predicate UnderOneOf(entries: seq<Entry>, top: seq<Entry>, x: Entry) {
    exists k :: 0 <= k < |top| && top[k].isComment && Under(entries, x, top[k])
  }

  lemma FlattenLast(rows: seq<Row>, x: Entry)
    requires rows != []
    ensures var n := |rows| - 1;
      multiset(Flatten(rows))[x] == multiset(Flatten(rows[..n]))[x] + multiset([rows[n].entry] + rows[n].replies)[x]
  {
    var n := |rows| - 1;
    assert Flatten(rows) == Flatten(rows[..n]) + ([rows[n].entry] + rows[n].replies);
  }

  /** Top-level entries of the timeline, its comments among them distinct. */
  ghost predicate AreTop(entries: seq<Entry>, top: seq<Entry>) {
    && (forall k :: 0 <= k < |top| ==> top[k] in entries && !IsReply(entries, top[k]))
    && (forall j, k :: 0 <= j < k < |top| && top[j].isComment ==> top[j] != top[k])
  }

  lemma TopPrefix(entries: seq<Entry>, top: seq<Entry>, rows: seq<Row>)
    requires AreRows(entries, top, rows) && AreTop(entries, top) && rows != []
    ensures var n := |rows| - 1;
      && AreRows(entries, top[..n], rows[..n]) && AreTop(entries, top[..n])
      && top == top[..n] + [top[n]] && top[n] in entries && !IsReply(entries, top[n]) && IsRow(entries, top[n], rows[n])
      && forall k :: 0 <= k < n && top[..n][k].isComment ==> top[..n][k] != top[n]
  {
  }

  lemma {:induction false} RowsShowReply(entries: seq<Entry>, top: seq<Entry>, rows: seq<Row>, x: Entry)
    requires UniqueIds(entries) && AreRows(entries, top, rows) && AreTop(entries, top) && x in entries &&
             IsReply(entries, x)
    ensures multiset(Flatten(rows))[x] == if UnderOneOf(entries, top, x) then 1 else 0
  {
    if rows != [] {
      var n := |rows| - 1;
      TopPrefix(entries, top, rows);
      RowsShowReply(entries, top[..n], rows[..n], x);
      RowShows(entries, top[n], rows[n], x);
      FlattenLast(rows, x);
      UnderOneMore(entries, top[..n], top[n], x);
    }
  }

  lemma {:induction false} RowsShowTop(entries: seq<Entry>, top: seq<Entry>, rows: seq<Row>, x: Entry)
    requires UniqueIds(entries) && AreRows(entries, top, rows) && AreTop(entries, top) && x in entries &&
             !IsReply(entries, x)
    ensures multiset(Flatten(rows))[x] == multiset(top)[x]
  {
    if rows != [] {
      var n := |rows| - 1;
      TopPrefix(entries, top, rows);
      RowsShowTop(entries, top[..n], rows[..n], x);
      RowShows(entries, top[n], rows[n], x);
      FlattenLast(rows, x);
      assert multiset(top) == multiset(top[..n]) + multiset{top[n]};
    }
  }

  /** With distinct comments at top level, a reply is under at most one of them. */
  lemma UnderOneMore(entries: seq<Entry>, front: seq<Entry>, last: Entry, x: Entry)
    requires last in entries && !IsReply(entries, last) && forall k :: 0 <= k < |front| ==> !IsReply(entries, front[k])
    requires forall k :: 0 <= k < |front| && front[k].isComment ==> front[k] != last
    ensures UnderOneOf(entries, front + [last], x) <==>
            UnderOneOf(entries, front, x) || (last.isComment && Under(entries, x, last))
    ensures !(UnderOneOf(entries, front, x) && last.isComment && Under(entries, x, last))
  {
    var all := front + [last];
    assert all[|front|] == last;
    if UnderOneOf(entries, front, x) {
      var k :| 0 <= k < |front| && front[k].isComment && Under(entries, x, front[k]);
      assert all[k] == front[k];
      if Under(entries, x, last) {
        var n: nat :| n > 0 && Up(entries, x, n) == Some(front[k]);
        var m: nat :| m > 0 && Up(entries, x, m) == Some(last);
        OneRoot(entries, x, n, m, front[k], last);
      }
    }
  }

  lemma {:induction false} TopLevelCounts(entries: seq<Entry>, part: seq<Entry>, x: Entry)
    ensures multiset(TopLevel(entries, part))[x] == if IsReply(entries, x) then 0 else multiset(part)[x]
  {
    if part != [] {
      var n := |part| - 1;
      TopLevelCounts(entries, part[..n], x);
      assert part == part[..n] + [part[n]];
      assert multiset(part)[x] == multiset(part[..n])[x] + (if part[n] == x then 1 else 0);
    }
  }

  lemma {:induction false} TopLevelDistinct(entries: seq<Entry>, part: seq<Entry>)
    requires UniqueIds(part)
    ensures forall j, k :: 0 <= j < k < |TopLevel(entries, part)| && TopLevel(entries, part)[j].isComment ==>
              TopLevel(entries, part)[j] != TopLevel(entries, part)[k]
  {
    if part != [] {
      var n := |part| - 1;
      var front, top := TopLevel(entries, part[..n]), TopLevel(entries, part);
      TopLevelDistinct(entries, part[..n]);
      TopLevelAre(entries, part[..n]);
      forall j, k | 0 <= j < k < |top| && top[j].isComment ensures top[j] != top[k] {
        assert top[j] == front[j] && front[j] in front;
        if k == |front| {
          var i :| 0 <= i < n && part[..n][i] == front[j];
          assert part[i] == front[j] && top[k] == part[n];
        } else {
          assert top[k] == front[k];
        }
      }
    }
  }

  /** A reply with a top-level ancestor is under one of the top-level comments, and conversely. */
  lemma RootedIsUnder(entries: seq<Entry>, x: Entry)
    requires x in entries && IsReply(entries, x)
    ensures Rooted(entries, x) <==> UnderOneOf(entries, TopLevel(entries, entries), x)
  {
    var top := TopLevel(entries, entries);
    TopLevelAre(entries, entries);
    if Rooted(entries, x) {
      var n: nat :| Up(entries, x, n).Some? && !IsReply(entries, Up(entries, x, n).value);
      ChainInside(entries, x, n);
      var r := Up(entries, x, n).value;
      assert n > 0 && r in top;
      var k :| 0 <= k < |top| && top[k] == r;
      assert Under(entries, x, top[k]);
    }
    if UnderOneOf(entries, top, x) {
      var k :| 0 <= k < |top| && top[k].isComment && Under(entries, x, top[k]);
      var n: nat :| n > 0 && Up(entries, x, n) == Some(top[k]);
      assert top[k] in top;
    }
  }

  lemma TopLevelIsTop(entries: seq<Entry>)
    requires UniqueIds(entries)
    ensures AreTop(entries, TopLevel(entries, entries))
  {
    TopLevelDistinct(entries, entries);
    forall k | 0 <= k < |TopLevel(entries, entries)|
      ensures TopLevel(entries, entries)[k] in entries && !IsReply(entries, TopLevel(entries, entries)[k])
    {
      TopLevelRoot(entries, k);
    }
  }

  /** Main result: an entry is shown once for each time it was loaded if its chain of parents ends at a top-level
      entry, and never otherwise. */
  lemma ShownOnce(entries: seq<Entry>, rows: seq<Row>, x: Entry)
    requires UniqueIds(entries) && AreRows(entries, TopLevel(entries, entries), rows) && x in entries
    ensures multiset(Flatten(rows))[x] == if Rooted(entries, x) then multiset(entries)[x] else 0
  {
    TopLevelIsTop(entries);
    if IsReply(entries, x) {
      RowsShowReply(entries, TopLevel(entries, entries), rows, x);
      RootedIsUnder(entries, x);
      CommentOnce(entries, x);
    } else {
      RowsShowTop(entries, TopLevel(entries, entries), rows, x);
      TopLevelCounts(entries, entries, x);
      assert Up(entries, x, 0) == Some(x);
    }
  }

  lemma {:induction false} CommentOnce(entries: seq<Entry>, x: Entry)
    requires UniqueIds(entries) && x in entries && x.isComment
    ensures multiset(entries)[x] == 1
  {
    var n := |entries| - 1;
    var front := entries[..n];
    assert entries == front + [entries[n]];
    if x == entries[n] {
      assert forall k :: 0 <= k < n && front[k].isComment ==> front[k].id != x.id;
      assert x !in front;
    } else {
      CommentOnce(front, x);
    }
  }

  // ----- cycles -----

  /** Following parents from `e` comes back to a comment it has passed. */
  ghost predicate RunsIntoCycle(entries: seq<Entry>, e: Entry) {
    exists m: nat, n: nat :: m < n && Up(entries, e, m).Some? && Up(entries, e, m) == Up(entries, e, n)
  }

  lemma {:induction false} UpMore(entries: seq<Entry>, e: Entry, n: nat)
    requires Up(entries, e, n).Some?
    ensures Up(entries, e, n + 1) == ParentOf(entries, Up(entries, e, n).value)
    decreases n
  {
    if n > 0 {
      UpMore(entries, ParentOf(entries, e).value, n - 1);
    } else if ParentOf(entries, e).Some? {
      assert Up(entries, ParentOf(entries, e).value, 0) == ParentOf(entries, e);
    }
  }

  /** Climbs from `e` until the chain ends at the top or repeats. */
  lemma {:induction false} Climb(entries: seq<Entry>, e: Entry, n: nat, seen: set<Id>)
    requires UniqueIds(entries) && e in entries && e.isComment && Up(entries, e, n).Some?
    requires forall k :: 0 <= k <= n ==> Up(entries, e, k).Some?
    requires seen == (set k | 0 <= k < n :: Up(entries, e, k).value.id) && |seen| == n && seen <= CommentIds(entries)
    ensures Rooted(entries, e) || RunsIntoCycle(entries, e)
    decreases |CommentIds(entries)| - n
  {
    var here := Up(entries, e, n).value;
    ChainInside(entries, e, n);
    CommentIdsHold(entries, here);
    if here.id in seen {
      var k :| 0 <= k < n && Up(entries, e, k).value.id == here.id;
      ChainInside(entries, e, k);
      SameIdSameComment(entries, here, Up(entries, e, k).value);
      assert Up(entries, e, k) == Up(entries, e, n);
    } else if IsReply(entries, here) {
      UpMore(entries, e, n);
      ReplyHasParent(entries, here);
      var more := seen + {here.id};
      assert more == set k | 0 <= k < n + 1 :: Up(entries, e, k).value.id;
      SmallerSet(more, CommentIds(entries));
      Climb(entries, e, n + 1, more);
    }
  }

  lemma SmallerSet(a: set<Id>, b: set<Id>)
    requires a <= b
    ensures |a| <= |b|
  {
    assert b == a + (b - a);
  }

  lemma {:induction false} RootedEnds(entries: seq<Entry>, e: Entry, n: nat, k: nat)
    requires Up(entries, e, n).Some? && !IsReply(entries, Up(entries, e, n).value) && k > n
    ensures Up(entries, e, k) == None
    decreases n
  {
    if n > 0 {
      RootedEnds(entries, ParentOf(entries, e).value, n - 1, k - 1);
    }
  }

  lemma {:induction false} CycleRepeats(entries: seq<Entry>, e: Entry, m: nat, n: nat, k: nat)
    requires m < n && Up(entries, e, m).Some? && Up(entries, e, m) == Up(entries, e, n)
    ensures Up(entries, e, k).Some?
    decreases k
  {
    if k > n {
      CycleRepeats(entries, e, m, n, k - (n - m));
      UpShift(entries, e, m, n, k - n);
    } else {
      UpPrefix(entries, e, n, k);
    }
  }

  lemma {:induction false} UpPrefix(entries: seq<Entry>, e: Entry, n: nat, k: nat)
    requires k <= n && Up(entries, e, n).Some?
    ensures Up(entries, e, k).Some?
    decreases k
  {
    if k > 0 {
      UpPrefix(entries, ParentOf(entries, e).value, n - 1, k - 1);
    }
  }

  lemma {:induction false} UpShift(entries: seq<Entry>, e: Entry, m: nat, n: nat, k: nat)
    requires Up(entries, e, m).Some? && Up(entries, e, m) == Up(entries, e, n)
    ensures Up(entries, e, m + k) == Up(entries, e, n + k)
  {
    UpAdd(entries, e, m, k);
    UpAdd(entries, e, n, k);
  }

  lemma {:induction false} UpAdd(entries: seq<Entry>, e: Entry, m: nat, k: nat)
    requires Up(entries, e, m).Some?
    ensures Up(entries, e, m + k) == Up(entries, Up(entries, e, m).value, k)
    decreases m
  {
    if m > 0 {
      UpAdd(entries, ParentOf(entries, e).value, m - 1, k);
    }
  }

  /** A comment is left out exactly when its chain of parents runs into a cycle. */
  lemma LostOnlyToCycles(entries: seq<Entry>, e: Entry)
    requires UniqueIds(entries) && e in entries
    ensures Rooted(entries, e) <==> !RunsIntoCycle(entries, e)
  {
    if e.isComment {
      assert Up(entries, e, 0) == Some(e);
      Climb(entries, e, 0, {});
    } else {
      assert Up(entries, e, 0) == Some(e);
    }
    if Rooted(entries, e) && RunsIntoCycle(entries, e) {
      var n: nat :| Up(entries, e, n).Some? && !IsReply(entries, Up(entries, e, n).value);
      var i: nat, j: nat :| i < j && Up(entries, e, i).Some? && Up(entries, e, i) == Up(entries, e, j);
      CycleRepeats(entries, e, i, j, n + 1);
      RootedEnds(entries, e, n, n + 1);
    }
  }

  /** Main result: counts agree, and the flattened rows are a permutation of the timeline, exactly when no chain of
      parents runs into a cycle. */
  lemma CountsAgree(entries: seq<Entry>, rows: seq<Row>)
    requires UniqueIds(entries) && AreRows(entries, TopLevel(entries, entries), rows)
    ensures multiset(Flatten(rows)) == multiset(entries) <==> forall e :: e in entries ==> !RunsIntoCycle(entries, e)
    ensures |Flatten(rows)| == |entries| <==> multiset(Flatten(rows)) == multiset(entries)
  {
    ShownAreLoaded(entries, rows);
    forall x | x in entries
      ensures multiset(Flatten(rows))[x] == if RunsIntoCycle(entries, x) then 0 else multiset(entries)[x]
    {
      ShownOnce(entries, rows, x);
      LostOnlyToCycles(entries, x);
    }
    LostFromMultiset(entries, Flatten(rows), set x | x in entries && RunsIntoCycle(entries, x));
  }

  lemma LostFromMultiset(all: seq<Entry>, shown: seq<Entry>, lost: set<Entry>)
    requires forall x :: x in shown ==> x in all
    requires forall x :: x in all ==> multiset(shown)[x] == if x in lost then 0 else multiset(all)[x]
    ensures multiset(shown) == multiset(all) <==> forall x :: x in all ==> x !in lost
    ensures |shown| == |all| <==> multiset(shown) == multiset(all)
  {
    var (a, b) := (multiset(shown), multiset(all));
    assert forall x :: x in all ==> b[x] > 0;
    forall x ensures a[x] <= b[x] {
      if x !in all { assert x !in shown; }
    }
    SameSizeIsSame(a, b);
    if forall x :: x in all ==> x !in lost {
      forall x ensures a[x] == b[x] {
        if x !in all { assert x !in shown; }
      }
    }
  }

  lemma SameSizeIsSame(a: multiset<Entry>, b: multiset<Entry>)
    requires a <= b
    ensures |a| == |b| <==> a == b
  {
    assert b == a + (b - a);
    assert |b| == |a| + |b - a|;
    if a != b {
      assert exists x :: a[x] < b[x];
    }
  }

  /** Two comments that answer each other are both left out. */
  lemma CycleIsLost() returns (entries: seq<Entry>)
    ensures entries == [Entry(1, true, Some(2), 0), Entry(2, true, Some(1), 1)] && UniqueIds(entries)
    ensures forall e :: e in entries ==> RunsIntoCycle(entries, e)
    ensures forall rows :: AreRows(entries, TopLevel(entries, entries), rows) ==> Flatten(rows) == []
  {
    var a, b := Entry(1, true, Some(2), 0), Entry(2, true, Some(1), 1);
    entries := [a, b];
    assert a in entries && b in entries;
    CommentIdsHold(entries, a);
    CommentIdsHold(entries, b);
    TopLevelAre(entries, entries);
    assert TopLevel(entries, entries) == [] by {
      if TopLevel(entries, entries) != [] { assert TopLevel(entries, entries)[0] in TopLevel(entries, entries); }
    }
    ParentIs(entries, a, b);
    ParentIs(entries, b, a);
    TwoUp(entries, a, b);
    TwoUp(entries, b, a);
  }

  lemma TwoUp(entries: seq<Entry>, e: Entry, p: Entry)
    requires ParentOf(entries, e) == Some(p) && ParentOf(entries, p) == Some(e)
    ensures RunsIntoCycle(entries, e)
  {
    assert Up(entries, e, 0) == Some(e) && Up(entries, p, 1) == Some(e) && Up(entries, e, 2) == Some(e) by {
      assert Up(entries, e, 0) == Some(e);
      assert Up(entries, p, 1) == Up(entries, e, 0);
      assert Up(entries, e, 2) == Up(entries, p, 1);
    }
  }

  lemma {:induction false} FlattenFrom(entries: seq<Entry>, top: seq<Entry>, rows: seq<Row>)
    requires UniqueIds(entries) && AreRows(entries, top, rows)
    requires forall k :: 0 <= k < |top| ==> top[k] in entries && !IsReply(entries, top[k])
    ensures forall x :: x in Flatten(rows) ==> x in entries
  {
    if rows != [] {
      var n := |rows| - 1;
      FlattenFrom(entries, top[..n], rows[..n]);
      assert IsRow(entries, top[n], rows[n]);
      if top[n].isComment {
        BundleIsSubtree(entries, top[n], rows[n].replies);
      }
    }
  }

  lemma ShownAreLoaded(entries: seq<Entry>, rows: seq<Row>)
    requires UniqueIds(entries) && AreRows(entries, TopLevel(entries, entries), rows)
    ensures forall x :: x in Flatten(rows) ==> x in entries
  {
    TopLevelIsTop(entries);
    FlattenFrom(entries, TopLevel(entries, entries), rows);
  }
}
