/** Reply bundles. */
module Threads {
  import opened Optional
  import opened IdWalk

  // Bundling a comment timeline into threads: every comment that replies, directly or through other replies,
  // to a top-level comment is folded into that comment's row, in breadth-first order.

  type Id = nat

  /** A timeline entry; `parent` is None for a missing parent id and for an empty one. */
  datatype Entry = Entry(id: Id, isComment: bool, parent: Option<Id>, body: nat)

  datatype Row = Row(entry: Entry, replies: seq<Entry>)

  // ----- the reply relation -----

  function CommentIds(entries: seq<Entry>): set<Id> {
    if entries == [] then {}
    else
      var n := |entries| - 1;
      CommentIds(entries[..n]) + (if entries[n].isComment then {entries[n].id} else {})
  }

  lemma {:induction false} CommentIdsHold(entries: seq<Entry>, e: Entry)
    requires e in entries && e.isComment
    ensures e.id in CommentIds(entries)
  {
    var n := |entries| - 1;
    assert entries == entries[..n] + [entries[n]];
    if e != entries[n] {
      CommentIdsHold(entries[..n], e);
    }
  }

  lemma {:induction false} CommentIdsFrom(entries: seq<Entry>, id: Id) returns (e: Entry)
    requires id in CommentIds(entries)
    ensures e in entries && e.isComment && e.id == id
  {
    var n := |entries| - 1;
    if id in CommentIds(entries[..n]) {
      e := CommentIdsFrom(entries[..n], id);
    } else {
      e := entries[n];
    }
  }

  /** A comment with a parent that is loaded; any other entry is top-level. */
  predicate IsReply(entries: seq<Entry>, e: Entry) {
    e.isComment && e.parent.Some? && e.parent.value in CommentIds(entries)
  }

  predicate UniqueIds(entries: seq<Entry>) {
    forall j, k | 0 <= j < k < |entries| && entries[j].isComment && entries[k].isComment ::
      entries[j].id != entries[k].id
  }

  function TopLevel(entries: seq<Entry>, part: seq<Entry>): seq<Entry> {
    if part == [] then []
    else
      var n := |part| - 1;
      TopLevel(entries, part[..n]) + (if IsReply(entries, part[n]) then [] else [part[n]])
  }

  /** The replies to one comment among `part`, in input order. */
  function Kids(entries: seq<Entry>, part: seq<Entry>, id: Id): seq<Entry> {
    if part == [] then []
    else
      var n := |part| - 1;
      Kids(entries, part[..n], id) +
      (if IsReply(entries, part[n]) && part[n].parent == Some(id) then [part[n]] else [])
  }

  lemma {:induction false} KidsAre(entries: seq<Entry>, part: seq<Entry>, id: Id)
    ensures forall e :: e in Kids(entries, part, id) <==> e in part && IsReply(entries, e) && e.parent == Some(id)
  {
    if part != [] {
      var n := |part| - 1;
      KidsAre(entries, part[..n], id);
      assert part == part[..n] + [part[n]];
    }
  }

  lemma {:induction false} KidsDistinct(entries: seq<Entry>, part: seq<Entry>, id: Id)
    requires UniqueIds(part)
    ensures UniqueIds(Kids(entries, part, id))
  {
    if part != [] {
      var n := |part| - 1;
      var front := part[..n];
      KidsDistinct(entries, front, id);
      KidsAre(entries, front, id);
      forall k | 0 <= k < |Kids(entries, front, id)| && part[n].isComment
        ensures Kids(entries, front, id)[k].id != part[n].id
      {
        var e := Kids(entries, front, id)[k];
        assert e in front;
        var j :| 0 <= j < n && front[j] == e;
        assert part[j] == e;
      }
    }
  }

  lemma SameIdSameComment(entries: seq<Entry>, a: Entry, b: Entry)
    requires UniqueIds(entries) && a in entries && b in entries && a.isComment && b.isComment
    ensures a.id == b.id ==> a == b
  {
  }

  // ----- the breadth-first walk -----

  /** The k-th id the walk meets: the root's, then those of the replies collected. */
  function Node(root: Entry, out: seq<Entry>, k: nat): Id
    requires k <= |out|
  {
    if k == 0 then root.id else out[k - 1].id
  }

  /** The replies to the first n ids met, in order. */
  function Gather(entries: seq<Entry>, root: Entry, out: seq<Entry>, n: nat): seq<Entry>
    requires n <= 1 + |out|
  {
    if n == 0 then [] else Gather(entries, root, out, n - 1) + Kids(entries, entries, Node(root, out, n - 1))
  }

  lemma {:induction false} GatherExtends(entries: seq<Entry>, root: Entry, out: seq<Entry>, more: seq<Entry>, n: nat)
    requires n <= 1 + |out|
    ensures Gather(entries, root, out + more, n) == Gather(entries, root, out, n)
  {
    if n > 0 {
      GatherExtends(entries, root, out, more, n - 1);
    }
  }

  ghost predicate NodesDistinct(root: Entry, out: seq<Entry>) {
    forall j, k :: 0 <= j < k <= |out| ==> Node(root, out, j) != Node(root, out, k)
  }

  /** The parent of out[k] is one of the first `done` ids met, and was met before out[k]. */
  ghost predicate ParentMet(root: Entry, out: seq<Entry>, done: nat, k: nat)
    requires k < |out| && done <= 1 + |out|
  {
    exists j :: 0 <= j < done && j <= k && out[k].parent == Some(Node(root, out, j))
  }

  /** The first `done` ids met have been expanded. */
  ghost predicate Walked(entries: seq<Entry>, root: Entry, done: nat, out: seq<Entry>) {
    && done <= 1 + |out|
    && out == Gather(entries, root, out, done)
    && NodesDistinct(root, out)
    && (forall k :: 0 <= k < |out| ==> out[k] in entries && IsReply(entries, out[k]) && ParentMet(root, out, done, k))
  }

  ghost predicate IsRoot(entries: seq<Entry>, root: Entry) {
    root in entries && root.isComment && !IsReply(entries, root)
  }

  /** With unique ids, a comment found under its parent has not been met before. */
  lemma KidIsNew(entries: seq<Entry>, root: Entry, done: nat, out: seq<Entry>, kid: Entry)
    requires UniqueIds(entries) && IsRoot(entries, root) && Walked(entries, root, done, out) && done <= |out|
    requires kid in entries && IsReply(entries, kid) && kid.parent == Some(Node(root, out, done))
    ensures forall j :: 0 <= j <= |out| ==> Node(root, out, j) != kid.id
  {
    SameIdSameComment(entries, kid, root);
    forall k | 0 <= k < |out| ensures out[k].id != kid.id {
      SameIdSameComment(entries, kid, out[k]);
      assert ParentMet(root, out, done, k);
      var j :| 0 <= j < done && j <= k && out[k].parent == Some(Node(root, out, j));
      assert Node(root, out, j) != Node(root, out, done);
    }
  }

  /** Replies to the next id, appended, keep all ids met distinct. */
  lemma DistinctStep(entries: seq<Entry>, root: Entry, done: nat, out: seq<Entry>, kids: seq<Entry>)
    requires UniqueIds(entries) && IsRoot(entries, root) && Walked(entries, root, done, out) && done <= |out|
    requires kids == Kids(entries, entries, Node(root, out, done))
    ensures NodesDistinct(root, out + kids)
  {
    KidsAre(entries, entries, Node(root, out, done));
    KidsDistinct(entries, entries, Node(root, out, done));
    assert forall i :: 0 <= i < |kids| ==> kids[i] in kids;
    forall i, j | 0 <= i < |kids| && 0 <= j <= |out| ensures Node(root, out, j) != kids[i].id {
      KidIsNew(entries, root, done, out, kids[i]);
    }
    DistinctAppended(root, out, kids);
  }

  lemma DistinctAppended(root: Entry, out: seq<Entry>, kids: seq<Entry>)
    requires NodesDistinct(root, out)
    requires forall i, j :: 0 <= i < |kids| && 0 <= j <= |out| ==> Node(root, out, j) != kids[i].id
    requires forall i, j :: 0 <= i < j < |kids| ==> kids[i].id != kids[j].id
    ensures NodesDistinct(root, out + kids)
  {
    var out' := out + kids;
    forall j, k | 0 <= j < k <= |out'| ensures Node(root, out', j) != Node(root, out', k) {
      NodeAppended(root, out, kids, j);
      NodeAppended(root, out, kids, k);
    }
  }

  lemma NodeAppended(root: Entry, out: seq<Entry>, kids: seq<Entry>, k: nat)
    requires k <= |out + kids|
    ensures Node(root, out + kids, k) == if k <= |out| then Node(root, out, k) else kids[k - 1 - |out|].id
  {
  }

  /** One step of the walk: take the next id, append its replies. */
  lemma WalkStep(entries: seq<Entry>, root: Entry, done: nat, out: seq<Entry>)
    requires UniqueIds(entries) && IsRoot(entries, root) && Walked(entries, root, done, out) && done <= |out|
    ensures Walked(entries, root, done + 1, out + Kids(entries, entries, Node(root, out, done)))
  {
    var pid := Node(root, out, done);
    var kids := Kids(entries, entries, pid);
    var out' := out + kids;
    KidsAre(entries, entries, pid);
    DistinctStep(entries, root, done, out, kids);
    GatherExtends(entries, root, out, kids, done);
    assert Node(root, out', done) == pid;
    forall k | 0 <= k < |out'|
      ensures out'[k] in entries && IsReply(entries, out'[k]) && ParentMet(root, out', done + 1, k)
    {
      if k < |out| {
        assert ParentMet(root, out, done, k);
        var j :| 0 <= j < done && j <= k && out[k].parent == Some(Node(root, out, j));
        assert out'[k].parent == Some(Node(root, out', j));
      } else {
        assert out'[k] in kids;
      }
    }
  }

  /** What has been collected after n turns of the walk. */
  function Walk(entries: seq<Entry>, root: Entry, n: nat): seq<Entry> {
    if n == 0 then []
    else
      var out := Walk(entries, root, n - 1);
      if n - 1 <= |out| then out + Kids(entries, entries, Node(root, out, n - 1)) else out
  }

  lemma {:induction false} WalkFacts(entries: seq<Entry>, root: Entry, n: nat)
    requires UniqueIds(entries) && IsRoot(entries, root) && n <= 1 + |Walk(entries, root, n)|
    requires n > 0 ==> n - 1 <= |Walk(entries, root, n - 1)|
    ensures Walked(entries, root, n, Walk(entries, root, n))
  {
    if n > 0 {
      var before := Walk(entries, root, n - 1);
      if n > 1 { WalkGrows(entries, root, n - 1); }
      WalkFacts(entries, root, n - 1);
      WalkedOn(entries, root, n, before);
    }
  }

  lemma WalkedOn(entries: seq<Entry>, root: Entry, n: nat, before: seq<Entry>)
    requires UniqueIds(entries) && IsRoot(entries, root) && 0 < n <= 1 + |before|
    requires before == Walk(entries, root, n - 1) && Walked(entries, root, n - 1, before)
    ensures Walked(entries, root, n, Walk(entries, root, n))
  {
    WalkStep(entries, root, n - 1, before);
    WalkUnfold(entries, root, n);
  }

  lemma WalkUnfold(entries: seq<Entry>, root: Entry, n: nat)
    requires n > 0 && n - 1 <= |Walk(entries, root, n - 1)|
    ensures var out := Walk(entries, root, n - 1);
      Walk(entries, root, n) == out + Kids(entries, entries, Node(root, out, n - 1))
  {
  }

  /** A turn that is taken comes after turns that were. */
  lemma WalkGrows(entries: seq<Entry>, root: Entry, n: nat)
    requires n > 0 && n <= |Walk(entries, root, n)|
    ensures n - 1 <= |Walk(entries, root, n - 1)|
  {
  }

  /** The walk is over: every id met has been expanded. */
  ghost predicate IsBundle(entries: seq<Entry>, root: Entry, out: seq<Entry>) {
    out == Walk(entries, root, 1 + |out|) && |Walk(entries, root, |out|)| >= |out|
  }

  lemma BundleFacts(entries: seq<Entry>, root: Entry, out: seq<Entry>)
    requires UniqueIds(entries) && IsRoot(entries, root) && IsBundle(entries, root, out)
    ensures Walked(entries, root, 1 + |out|, out)
  {
    WalkFacts(entries, root, 1 + |out|);
  }

  /** Where the walk met the parent of a reply: the root, or an earlier reply. */
  lemma BundleParent(entries: seq<Entry>, root: Entry, out: seq<Entry>, k: nat) returns (j: nat)
    requires UniqueIds(entries) && IsRoot(entries, root) && IsBundle(entries, root, out) && k < |out|
    ensures j <= k && out[k].parent == Some(Node(root, out, j))
    ensures out[k] in entries && IsReply(entries, out[k])
    ensures j > 0 ==> out[j - 1] in entries && out[j - 1].isComment
  {
    BundleFacts(entries, root, out);
    assert ParentMet(root, out, 1 + |out|, k);
    j :| 0 <= j < 1 + |out| && j <= k && out[k].parent == Some(Node(root, out, j));
  }

  // ----- the queue -----

  function IdsOf(entries: seq<Entry>): seq<Id> {
    seq(|entries|, k requires 0 <= k < |entries| => entries[k].id)
  }

  /** The ids a turn of the walk queues. */
  function KidIds(entries: seq<Entry>, id: Id): seq<Id> {
    IdsOf(Kids(entries, entries, id))
  }

  function Replies(entries: seq<Entry>): Id -> seq<Id> {
    id => KidIds(entries, id)
  }

  /** An id a turn queues is that of a loaded reply. */
  lemma KidIsReply(entries: seq<Entry>, id: Id, kid: Id) returns (e: Entry)
    requires kid in KidIds(entries, id)
    ensures e in entries && IsReply(entries, e) && e.parent == Some(id) && e.id == kid
    ensures kid in CommentIds(entries)
  {
    var kids := Kids(entries, entries, id);
    var k :| 0 <= k < |kids| && IdsOf(kids)[k] == kid;
    e := kids[k];
    assert e in kids;
    KidsAre(entries, entries, id);
    CommentIdsHold(entries, e);
  }

  /** The queue holds the ids met and not yet expanded. */
  ghost predicate IsQueue(queue: seq<Id>, root: Entry, out: seq<Entry>, done: nat) {
    && done <= 1 + |out| && |queue| == 1 + |out| - done
    && forall k :: 0 <= k < |queue| ==> queue[k] == Node(root, out, done + k)
  }

  /** After n turns the queue of the walk over ids holds what the walk over comments has met and not expanded. */
  lemma {:induction false} QueueIsUnexpanded(entries: seq<Entry>, root: Entry, n: nat)
    returns (queue: seq<Id>, out: seq<Entry>)
    requires n > 0 ==> QueueAfter(Replies(entries), [root.id], n - 1) != []
    ensures queue == QueueAfter(Replies(entries), [root.id], n) && out == Walk(entries, root, n)
    ensures IsQueue(queue, root, out, n) && (n > 0 ==> n - 1 <= |Walk(entries, root, n - 1)|)
  {
    if n == 0 {
      queue, out := [root.id], [];
    } else {
      if n > 1 { StillBusy(Replies(entries), [root.id], n - 2); }
      var q, o := QueueIsUnexpanded(entries, root, n - 1);
      QueueStep(Replies(entries), [root.id], n - 1);
      QueueTurn(q, root, o, Kids(entries, entries, q[0]), n - 1);
      queue, out := q[1..] + KidIds(entries, q[0]), o + Kids(entries, entries, q[0]);
    }
  }

  lemma QueueTurn(queue: seq<Id>, root: Entry, out: seq<Entry>, kids: seq<Entry>, done: nat)
    requires queue != [] && IsQueue(queue, root, out, done)
    ensures done <= |out| && queue[0] == Node(root, out, done)
    ensures IsQueue(queue[1..] + IdsOf(kids), root, out + kids, done + 1)
  {
  }

  /** An empty queue ends the walk. */
  lemma WalkEnds(entries: seq<Entry>, root: Entry, n: nat)
    requires QueueAfter(Replies(entries), [root.id], n) == []
    requires n > 0 ==> QueueAfter(Replies(entries), [root.id], n - 1) != []
    ensures IsBundle(entries, root, Walk(entries, root, n))
  {
    var queue, out := QueueIsUnexpanded(entries, root, n);
  }

  /** Without a loop, some bound holds for every chain of replies. */
  lemma ShortReplies(entries: seq<Entry>, id: Id) returns (longest: nat)
    requires !Loops(Replies(entries), id)
    ensures AllShort(Replies(entries), [id], longest)
  {
    var all := CommentIds(entries) + {id};
    forall i, j | j in Replies(entries)(i) ensures j in all {
      var e := KidIsReply(entries, i, j);
    }
    NoLoopIsShort(Replies(entries), id, all);
    longest := |all|;
  }

  lemma NextTurn(entries: seq<Entry>, root: Entry, out: seq<Entry>, queue: seq<Id>, done: nat, longest: nat)
    requires queue != [] && queue == QueueAfter(Replies(entries), [root.id], done) && out == Walk(entries, root, done)
    requires done > 0 ==> QueueAfter(Replies(entries), [root.id], done - 1) != []
    requires AllShort(Replies(entries), queue, longest)
    ensures var queue' := queue[1..] + IdsOf(Kids(entries, entries, queue[0]));
      && queue' == QueueAfter(Replies(entries), [root.id], done + 1) && AllShort(Replies(entries), queue', longest)
      && Turns(Replies(entries), queue', longest) < Turns(Replies(entries), queue, longest)
    ensures out + Kids(entries, entries, queue[0]) == Walk(entries, root, done + 1)
  {
    var q, o := QueueIsUnexpanded(entries, root, done);
    QueueStep(Replies(entries), [root.id], done);
    OneTurn(Replies(entries), queue, KidIds(entries, queue[0]), longest);
  }

  method CollectDescendants(entries: seq<Entry>, children: map<Id, seq<Entry>>, root: Entry) returns (out: seq<Entry>)
    requires !Loops(Replies(entries), root.id)
    requires forall id :: Kids(entries, entries, id) == if id in children then children[id] else []
    ensures IsBundle(entries, root, out)
  {
    out := [];
    var queue := [root.id];
    ghost var next := Replies(entries);
    ghost var done: nat := 0;
    ghost var longest := ShortReplies(entries, root.id);
    while |queue| > 0
      invariant queue == QueueAfter(next, [root.id], done) && out == Walk(entries, root, done)
      invariant done > 0 ==> QueueAfter(next, [root.id], done - 1) != []
      invariant AllShort(next, queue, longest)
      decreases Turns(next, queue, longest)
    {
      var pid := queue[0];
      NextTurn(entries, root, out, queue, done, longest);
      var kids := if pid in children then children[pid] else [];
      out, queue := AppendKids(out, queue[1..], kids);
      done := done + 1;
    }
    WalkEnds(entries, root, done);
  }

  method AppendKids(out: seq<Entry>, queue: seq<Id>, kids: seq<Entry>) returns (out': seq<Entry>, queue': seq<Id>)
    ensures out' == out + kids && queue' == queue + IdsOf(kids)
  {
    out', queue' := out, queue;
    for k := 0 to |kids|
      invariant out' == out + kids[..k] && queue' == queue + IdsOf(kids[..k])
    {
      out' := out' + [kids[k]];
      queue' := queue' + [kids[k].id];
    }
    assert kids[..|kids|] == kids;
  }

  /** No chain of replies from a top-level comment comes back to an id it has passed. */
  ghost predicate WalksEnd(entries: seq<Entry>) {
    forall e :: IsRoot(entries, e) ==> !Loops(Replies(entries), e.id)
  }

  // ----- chains of parents -----

  /** The comment with this id. */
  function FindComment(entries: seq<Entry>, id: Id): Option<Entry> {
    if entries == [] then None
    else if entries[0].isComment && entries[0].id == id then Some(entries[0])
    else FindComment(entries[1..], id)
  }

  lemma {:induction false} FindCommentIs(entries: seq<Entry>, id: Id)
    ensures FindComment(entries, id).Some? ==>
              var e := FindComment(entries, id).value; e in entries && e.isComment && e.id == id
    ensures FindComment(entries, id).None? ==> forall e :: e in entries && e.isComment ==> e.id != id
  {
    if entries != [] {
      FindCommentIs(entries[1..], id);
      assert entries == [entries[0]] + entries[1..];
    }
  }

  /** A reply has a parent among the comments. */
  lemma ReplyHasParent(entries: seq<Entry>, e: Entry)
    requires IsReply(entries, e)
    ensures ParentOf(entries, e).Some?
    ensures var p := ParentOf(entries, e).value; p in entries && p.isComment && e.parent == Some(p.id)
  {
    FindCommentIs(entries, e.parent.value);
    var p := CommentIdsFrom(entries, e.parent.value);
  }

  function ParentOf(entries: seq<Entry>, e: Entry): Option<Entry> {
    if IsReply(entries, e) then FindComment(entries, e.parent.value) else None
  }

  /** `n` parents up. */
  function Up(entries: seq<Entry>, e: Entry, n: nat): Option<Entry>
    decreases n
  {
    if n == 0 then Some(e)
    else
      var p := ParentOf(entries, e);
      if p.None? then None else Up(entries, p.value, n - 1)
  }

  ghost predicate Under(entries: seq<Entry>, e: Entry, root: Entry) {
    exists n: nat :: n > 0 && Up(entries, e, n) == Some(root)
  }

  /** The chain of parents ends at a top-level entry. */
  ghost predicate Rooted(entries: seq<Entry>, e: Entry) {
    exists n: nat :: Up(entries, e, n).Some? && !IsReply(entries, Up(entries, e, n).value)
  }

  lemma ParentIs(entries: seq<Entry>, e: Entry, p: Entry)
    requires UniqueIds(entries) && IsReply(entries, e) && p in entries && p.isComment && e.parent == Some(p.id)
    ensures ParentOf(entries, e) == Some(p)
  {
    ReplyHasParent(entries, e);
    SameIdSameComment(entries, ParentOf(entries, e).value, p);
  }

  /** Everything in the bundle descends from its root. */
  lemma {:induction false} CollectedDescends(entries: seq<Entry>, root: Entry, out: seq<Entry>, k: nat) returns (n: nat)
    requires UniqueIds(entries) && IsRoot(entries, root) && IsBundle(entries, root, out) && k < |out|
    ensures n > 0 && Up(entries, out[k], n) == Some(root)
  {
    var j := BundleParent(entries, root, out, k);
    if j == 0 {
      ParentIs(entries, out[k], root);
      n := 1;
      assert Up(entries, root, 0) == Some(root);
    } else {
      ParentIs(entries, out[k], out[j - 1]);
      n := CollectedDescends(entries, root, out, j - 1);
      n := n + 1;
    }
  }

  lemma InGather(entries: seq<Entry>, root: Entry, out: seq<Entry>, n: nat, e: Entry)
    requires 0 < n <= 1 + |out|
    ensures e in Gather(entries, root, out, n) <==>
            e in Gather(entries, root, out, n - 1) || e in Kids(entries, entries, Node(root, out, n - 1))
  {
  }

  lemma Gathered(entries: seq<Entry>, root: Entry, out: seq<Entry>, n: nat, k: nat, e: Entry)
    requires k < n <= 1 + |out| && e in Kids(entries, entries, Node(root, out, k))
    ensures e in Gather(entries, root, out, n)
  {
    assert e in Gather(entries, root, out, k + 1) by { InGather(entries, root, out, k + 1, e); }
    StaysGathered(entries, root, out, k + 1, n, e);
  }

  lemma {:induction false} StaysGathered(entries: seq<Entry>, root: Entry, out: seq<Entry>, m: nat, n: nat, e: Entry)
    requires m <= n <= 1 + |out| && e in Gather(entries, root, out, m)
    ensures e in Gather(entries, root, out, n)
  {
    if m < n {
      StaysGathered(entries, root, out, m, n - 1, e);
      InGather(entries, root, out, n, e);
    }
  }

  /** A reply to an id the walk met is in the bundle. */
  lemma KidCollected(entries: seq<Entry>, root: Entry, out: seq<Entry>, at: nat, e: Entry)
    requires UniqueIds(entries) && IsRoot(entries, root) && IsBundle(entries, root, out)
    requires at <= |out| && e in entries && IsReply(entries, e) && e.parent == Some(Node(root, out, at))
    ensures e in out
  {
    BundleFacts(entries, root, out);
    KidsAre(entries, entries, Node(root, out, at));
    Gathered(entries, root, out, 1 + |out|, at, e);
  }

  lemma NextUp(entries: seq<Entry>, e: Entry, n: nat, root: Entry) returns (p: Entry)
    requires n > 0 && Up(entries, e, n) == Some(root)
    ensures IsReply(entries, e) && e.parent == Some(p.id) && p in entries && p.isComment
    ensures Up(entries, p, n - 1) == Some(root) && (n == 1 ==> p == root)
  {
    p := ParentOf(entries, e).value;
    ReplyHasParent(entries, e);
  }

  /** Every descendant of the root is in the bundle. */
  lemma {:induction false} DescendantCollected(entries: seq<Entry>, root: Entry, out: seq<Entry>, e: Entry, n: nat)
    requires UniqueIds(entries) && IsRoot(entries, root) && IsBundle(entries, root, out)
    requires e in entries && n > 0 && Up(entries, e, n) == Some(root)
    ensures e in out
    decreases n
  {
    var p := NextUp(entries, e, n, root);
    if n == 1 {
      KidCollected(entries, root, out, 0, e);
    } else {
      DescendantCollected(entries, root, out, p, n - 1);
      var k :| 0 <= k < |out| && out[k] == p;
      KidCollected(entries, root, out, k + 1, e);
    }
  }

  /** Main result: a bundle holds exactly the descendants of its root, each once, parents before replies. */
  lemma BundleIsSubtree(entries: seq<Entry>, root: Entry, out: seq<Entry>)
    requires UniqueIds(entries) && IsRoot(entries, root) && IsBundle(entries, root, out)
    ensures forall e :: e in out <==> e in entries && Under(entries, e, root)
    ensures forall j, k :: 0 <= j < k < |out| ==> out[j] != out[k]
    ensures forall k :: 0 <= k < |out| ==>
            out[k].parent == Some(root.id) || exists j :: 0 <= j < k && out[k].parent == Some(out[j].id)
  {
    BundleFacts(entries, root, out);
    forall e | e in out ensures Under(entries, e, root) && e in entries {
      var k :| 0 <= k < |out| && out[k] == e;
      var n := CollectedDescends(entries, root, out, k);
    }
    forall e | e in entries && Under(entries, e, root) ensures e in out {
      var n: nat :| n > 0 && Up(entries, e, n) == Some(root);
      DescendantCollected(entries, root, out, e, n);
    }
    forall j, k | 0 <= j < k < |out| ensures out[j] != out[k] {
      assert Node(root, out, j + 1) != Node(root, out, k + 1);
    }
    forall k | 0 <= k < |out|
      ensures out[k].parent == Some(root.id) || exists j :: 0 <= j < k && out[k].parent == Some(out[j].id)
    {
      var j := BundleParent(entries, root, out, k);
      if j > 0 { assert out[k].parent == Some(out[j - 1].id); }
    }
  }
}
