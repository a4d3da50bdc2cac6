/** The order of a bundle. */
module ThreadOrder {
  import opened Optional
  import opened Threads
  import opened ThreadRows

  // A bundle lists the replies to its root, then the replies to each of these in turn, and so on; replies to one
  // comment come in input order.  That is the input order throughout only if replies to earlier comments come earlier.

  /** Where an entry is first found. */
  function Pos(entries: seq<Entry>, e: Entry): nat {
    if entries == [] || entries[0] == e then 0 else 1 + Pos(entries[1..], e)
  }

  lemma {:induction false} PosFinds(entries: seq<Entry>, e: Entry)
    requires e in entries
    ensures Pos(entries, e) < |entries| && entries[Pos(entries, e)] == e
  {
    if entries[0] != e {
      PosFinds(entries[1..], e);
    }
  }

  lemma PosIs(entries: seq<Entry>, p: nat)
    requires UniqueIds(entries) && p < |entries| && entries[p].isComment
    ensures Pos(entries, entries[p]) == p
  {
    PosFinds(entries, entries[p]);
  }

  // ----- breadth first -----

  /** Replies to one comment come in input order. */
  lemma {:induction false} KidsInOrder(entries: seq<Entry>, n: nat, id: Id, a: nat, b: nat)
    requires UniqueIds(entries) && n <= |entries| && a < |Kids(entries, entries[..n], id)|
    ensures var kids := Kids(entries, entries[..n], id);
      && kids[a] in entries && Pos(entries, kids[a]) < n
      && (a < b < |kids| ==> Pos(entries, kids[a]) < Pos(entries, kids[b]))
  {
    assert entries[..n][..n - 1] == entries[..n - 1];
    var front := Kids(entries, entries[..n - 1], id);
    if entries[n - 1].isComment { PosIs(entries, n - 1); }
    if a < |front| {
      KidsInOrder(entries, n - 1, id, a, b);
    }
  }

  /** An entry gathered for the n-th id is a reply to it; one gathered before is a reply to an earlier id. */
  lemma {:induction false} GatheredFor(entries: seq<Entry>, root: Entry, out: seq<Entry>, n: nat, k: nat)
    returns (at: nat)
    requires n <= 1 + |out| && k < |Gather(entries, root, out, n)|
    ensures at < n && Gather(entries, root, out, n)[k].parent == Some(Node(root, out, at))
  {
    var before := |Gather(entries, root, out, n - 1)|;
    var kids := Kids(entries, entries, Node(root, out, n - 1));
    if k < before {
      at := GatheredFor(entries, root, out, n - 1, k);
    } else {
      KidsAre(entries, entries, Node(root, out, n - 1));
      assert kids[k - before] in kids;
      at := n - 1;
    }
  }

  /** The pieces of a gathering, position by position. */
  lemma GatherAt(entries: seq<Entry>, root: Entry, out: seq<Entry>, n: nat, k: nat)
    requires 0 < n <= 1 + |out| && k < |Gather(entries, root, out, n)|
    ensures var (front, kids) := (Gather(entries, root, out, n - 1), Kids(entries, entries, Node(root, out, n - 1)));
      Gather(entries, root, out, n)[k] == if k < |front| then front[k] else kids[k - |front|]
  {
  }

  lemma LastGathered(entries: seq<Entry>, root: Entry, out: seq<Entry>, n: nat, j: nat, k: nat)
    requires UniqueIds(entries) && 0 < n <= 1 + |out| &&
             |Gather(entries, root, out, n - 1)| <= k < |Gather(entries, root, out, n)|
    ensures Gather(entries, root, out, n)[k].parent == Some(Node(root, out, n - 1))
    ensures |Gather(entries, root, out, n - 1)| <= j < k ==>
              Pos(entries, Gather(entries, root, out, n)[j]) < Pos(entries, Gather(entries, root, out, n)[k])
  {
    var id, before := Node(root, out, n - 1), |Gather(entries, root, out, n - 1)|;
    GatherAt(entries, root, out, n, k);
    var i := if before <= j < k then j - before else k - before;
    if before <= j < k { GatherAt(entries, root, out, n, j); }
    KidsPlaced(entries, id, i, k - before);
  }

  lemma KidsPlaced(entries: seq<Entry>, id: Id, j: nat, k: nat)
    requires UniqueIds(entries) && j <= k < |Kids(entries, entries, id)|
    ensures Kids(entries, entries, id)[k].parent == Some(id)
    ensures j < k ==> Pos(entries, Kids(entries, entries, id)[j]) < Pos(entries, Kids(entries, entries, id)[k])
  {
    KidsAre(entries, entries, id);
    assert Kids(entries, entries, id)[k] in Kids(entries, entries, id);
    if j < k {
      assert entries[..|entries|] == entries;
      KidsInOrder(entries, |entries|, id, j, k);
    }
  }

  lemma {:induction false} GatherOrder(entries: seq<Entry>, root: Entry, out: seq<Entry>, n: nat, g: seq<Entry>,
                                       j: nat, k: nat, pj: nat, pk: nat)
    requires UniqueIds(entries) && NodesDistinct(root, out) && n <= 1 + |out| && g == Gather(entries, root, out, n)
    requires j < k < |g| && pj <= |out| && pk <= |out|
    requires g[j].parent == Some(Node(root, out, pj)) && g[k].parent == Some(Node(root, out, pk))
    ensures pj <= pk && (pj == pk ==> Pos(entries, g[j]) < Pos(entries, g[k]))
  {
    var before := |Gather(entries, root, out, n - 1)|;
    GatherAt(entries, root, out, n, j);
    GatherAt(entries, root, out, n, k);
    if k < before {
      GatherOrder(entries, root, out, n - 1, Gather(entries, root, out, n - 1), j, k, pj, pk);
    } else {
      LastGathered(entries, root, out, n, j, k);
      SameNode(root, out, pk, n - 1);
      if j < before {
        var at := GatheredFor(entries, root, out, n - 1, j);
        SameNode(root, out, pj, at);
      } else {
        LastGathered(entries, root, out, n, j, j);
        SameNode(root, out, pj, n - 1);
      }
    }
  }

  lemma SameNode(root: Entry, out: seq<Entry>, a: nat, b: nat)
    requires NodesDistinct(root, out) && a <= |out| && b <= |out|
    ensures Node(root, out, a) == Node(root, out, b) <==> a == b
  {
  }

  /** A bundle is what has been gathered for some number of ids. */
  lemma GatheredBundle(entries: seq<Entry>, root: Entry, out: seq<Entry>) returns (n: nat)
    requires UniqueIds(entries) && IsRoot(entries, root) && IsBundle(entries, root, out)
    ensures n <= 1 + |out| && out == Gather(entries, root, out, n) && NodesDistinct(root, out)
  {
    BundleFacts(entries, root, out);
    n := 1 + |out|;
  }

  /** Main result: a bundle is in breadth-first order.  Of two replies in it, the first answers the same comment as the
      second and comes first in the input, or answers a comment that comes first in the bundle, the root before all. */
  lemma BreadthFirst(entries: seq<Entry>, root: Entry, out: seq<Entry>, j: nat, k: nat, pj: nat, pk: nat)
    requires UniqueIds(entries) && IsRoot(entries, root) && IsBundle(entries, root, out)
    requires j < k < |out| && pj <= |out| && pk <= |out|
    requires out[j].parent == Some(Node(root, out, pj)) && out[k].parent == Some(Node(root, out, pk))
    ensures pj <= pk && (pj == pk ==> Pos(entries, out[j]) < Pos(entries, out[k]))
  {
    var n := GatheredBundle(entries, root, out);
    GatherOrder(entries, root, out, n, out, j, k, pj, pk);
  }

  /** The parent of an entry of the bundle, and that the entry is not the root. */
  lemma NodeIsParent(entries: seq<Entry>, root: Entry, out: seq<Entry>, k: nat, p: nat)
    requires UniqueIds(entries) && IsRoot(entries, root) && IsBundle(entries, root, out)
    requires k < |out| && p <= |out| && out[k].parent == Some(Node(root, out, p))
    ensures out[k] in entries && IsReply(entries, out[k]) && out[k] != root
    ensures ParentOf(entries, out[k]) == Some(if p == 0 then root else out[p - 1])
    ensures p > 0 ==> out[p - 1] != root
  {
    var at := BundleParent(entries, root, out, k);
    BundleFacts(entries, root, out);
    SameNode(root, out, p, at);
    ParentIs(entries, out[k], if p == 0 then root else out[p - 1]);
    if p > 0 { assert Node(root, out, p) != Node(root, out, 0); }
  }

  /** The place of an entry's parent among the ids met. */
  lemma PlaceOfParent(entries: seq<Entry>, root: Entry, out: seq<Entry>, k: nat) returns (p: nat)
    requires UniqueIds(entries) && IsRoot(entries, root) && IsBundle(entries, root, out) && k < |out|
    ensures p <= k && out[k].parent == Some(Node(root, out, p)) && out[k] in entries && out[k] != root
    ensures ParentOf(entries, out[k]) == Some(if p == 0 then root else out[p - 1]) && (p > 0 ==> out[p - 1] != root)
    ensures Under(entries, out[k], root)
  {
    p := BundleParent(entries, root, out, k);
    NodeIsParent(entries, root, out, k, p);
    var n := CollectedDescends(entries, root, out, k);
  }

  lemma OneUp(entries: seq<Entry>, e: Entry, parent: Entry, root: Entry, n: nat)
    requires ParentOf(entries, e) == Some(parent) && e != root && Up(entries, e, n) == Some(root)
    ensures n > 0 && Up(entries, parent, n - 1) == Some(root)
  {
  }

  lemma OneDepth(entries: seq<Entry>, e: Entry, root: Entry, m: nat, n: nat)
    requires !IsReply(entries, root) && Up(entries, e, m) == Some(root) && Up(entries, e, n) == Some(root)
    ensures m == n
  {
    if m < n { RootedEnds(entries, e, m, n); }
    if n < m { RootedEnds(entries, e, n, m); }
  }

  /** The parent of an entry of the bundle is one closer to the root. */
  lemma ParentAbove(entries: seq<Entry>, root: Entry, out: seq<Entry>, k: nat, n: nat) returns (p: nat, e: Entry)
    requires UniqueIds(entries) && IsRoot(entries, root) && IsBundle(entries, root, out) && k < |out|
    requires Up(entries, out[k], n) == Some(root)
    ensures p <= k && out[k].parent == Some(Node(root, out, p)) && e == (if p == 0 then root else out[p - 1])
    ensures n > 0 && Up(entries, e, n - 1) == Some(root) && (p == 0 ==> n == 1)
  {
    p := PlaceOfParent(entries, root, out, k);
    e := if p == 0 then root else out[p - 1];
    OneUp(entries, out[k], e, root, n);
    if p == 0 { OneDepth(entries, root, root, n - 1, 0); }
  }

  /** Main result: so the depth never decreases along a bundle. */
  lemma {:induction false} DepthsGrow(entries: seq<Entry>, root: Entry, out: seq<Entry>, j: nat, k: nat, m: nat, n: nat)
    requires UniqueIds(entries) && IsRoot(entries, root) && IsBundle(entries, root, out) && j < k < |out|
    requires Up(entries, out[j], m) == Some(root) && Up(entries, out[k], n) == Some(root)
    ensures 0 < m <= n
    decreases k
  {
    var pj, ej := ParentAbove(entries, root, out, j, m);
    var pk, ek := ParentAbove(entries, root, out, k, n);
    BreadthFirst(entries, root, out, j, k, pj, pk);
    if pj == pk {
      OneDepth(entries, ej, root, m - 1, n - 1);
    } else if pj > 0 {
      DepthsGrow(entries, root, out, pj - 1, pk - 1, m - 1, n - 1);
    }
  }

  // ----- when that is the input order -----

  ghost predicate InInputOrder(entries: seq<Entry>, out: seq<Entry>) {
    forall j, k :: 0 <= j < k < |out| ==> Pos(entries, out[j]) < Pos(entries, out[k])
  }

  /** The root comes before all its replies; these go by the input. */
  predicate Earlier(entries: seq<Entry>, root: Entry, p: Entry, q: Entry) {
    if p == root then q != root else q != root && Pos(entries, p) < Pos(entries, q)
  }

  /** Of two descendants of the root, the one that answers the earlier comment comes earlier. */
  ghost predicate RepliesFollow(entries: seq<Entry>, root: Entry) {
    forall x, y :: Under(entries, x, root) && Under(entries, y, root) && x in entries && y in entries ==>
      (Earlier(entries, root, ParentOf(entries, x).value, ParentOf(entries, y).value) ==>
        Pos(entries, x) < Pos(entries, y))
  }

  lemma {:induction false} FollowsThenOrdered(entries: seq<Entry>, root: Entry, out: seq<Entry>, j: nat, k: nat)
    requires UniqueIds(entries) && IsRoot(entries, root) && IsBundle(entries, root, out) && j < k < |out|
    requires RepliesFollow(entries, root)
    ensures Pos(entries, out[j]) < Pos(entries, out[k])
    decreases k
  {
    var pj, p := ParentAt(entries, root, out, j);
    var pk, q := ParentAt(entries, root, out, k);
    BreadthFirst(entries, root, out, j, k, pj, pk);
    if pj < pk {
      if pj > 0 { FollowsThenOrdered(entries, root, out, pj - 1, pk - 1); }
      AnswersEarlier(entries, root, out[j], out[k], p, q);
    }
  }

  /** The parent of an entry of the bundle, and its place among the ids met. */
  lemma ParentAt(entries: seq<Entry>, root: Entry, out: seq<Entry>, k: nat) returns (at: nat, p: Entry)
    requires UniqueIds(entries) && IsRoot(entries, root) && IsBundle(entries, root, out) && k < |out|
    ensures at <= k && out[k].parent == Some(Node(root, out, at))
    ensures Answers(entries, root, out[k], p) && (p == root <==> at == 0) && (at > 0 ==> p == out[at - 1])
  {
    at := PlaceOfParent(entries, root, out, k);
    p := if at == 0 then root else out[at - 1];
  }

  /** A descendant of the root and its parent. */
  ghost predicate Answers(entries: seq<Entry>, root: Entry, x: Entry, p: Entry) {
    x in entries && Under(entries, x, root) && ParentOf(entries, x) == Some(p)
  }

  lemma AnswersEarlier(entries: seq<Entry>, root: Entry, x: Entry, y: Entry, p: Entry, q: Entry)
    requires RepliesFollow(entries, root) && Earlier(entries, root, p, q)
    requires Answers(entries, root, x, p) && Answers(entries, root, y, q)
    ensures Pos(entries, x) < Pos(entries, y)
  {
  }

  lemma OrderedThenFollows(entries: seq<Entry>, root: Entry, out: seq<Entry>, a: nat, b: nat)
    requires UniqueIds(entries) && IsRoot(entries, root) && IsBundle(entries, root, out) && a < |out| && b < |out|
    requires InInputOrder(entries, out) && ParentOf(entries, out[a]).Some? && ParentOf(entries, out[b]).Some?
    requires Earlier(entries, root, ParentOf(entries, out[a]).value, ParentOf(entries, out[b]).value)
    ensures Pos(entries, out[a]) < Pos(entries, out[b])
  {
    var pa := PlaceOfParent(entries, root, out, a);
    var pb := PlaceOfParent(entries, root, out, b);
    if b < a {
      BreadthFirst(entries, root, out, b, a, pb, pa);
    }
  }

  /** Main result: a bundle is in input order exactly when replies to earlier comments come earlier. */
  lemma ChronologicalExactly(entries: seq<Entry>, root: Entry, out: seq<Entry>)
    requires UniqueIds(entries) && IsRoot(entries, root) && IsBundle(entries, root, out)
    ensures InInputOrder(entries, out) <==> RepliesFollow(entries, root)
  {
    BundleIsSubtree(entries, root, out);
    if RepliesFollow(entries, root) {
      forall j, k | 0 <= j < k < |out| ensures Pos(entries, out[j]) < Pos(entries, out[k]) {
        FollowsThenOrdered(entries, root, out, j, k);
      }
    }
    if InInputOrder(entries, out) {
      forall x, y | Under(entries, x, root) && Under(entries, y, root) && x in entries && y in entries &&
          Earlier(entries, root, ParentOf(entries, x).value, ParentOf(entries, y).value)
        ensures Pos(entries, x) < Pos(entries, y)
      {
        var a :| 0 <= a < |out| && out[a] == x;
        var b :| 0 <= b < |out| && out[b] == y;
        OrderedThenFollows(entries, root, out, a, b);
      }
    }
  }

  /** A reply to a reply, loaded before another reply to the root: the bundle lists it after that one. */
  lemma NestedReplyComesLate() returns (entries: seq<Entry>)
    ensures entries == [Entry(1, true, None, 0), Entry(2, true, Some(1), 1),
                        Entry(3, true, Some(2), 2), Entry(4, true, Some(1), 3)]
    ensures UniqueIds(entries) && IsRoot(entries, entries[0]) && !RepliesFollow(entries, entries[0])
  {
    var root, b := Entry(1, true, None, 0), Entry(2, true, Some(1), 1);
    var c, d := Entry(3, true, Some(2), 2), Entry(4, true, Some(1), 3);
    entries := [root, b, c, d];
    CommentIdsHold(entries, root);
    CommentIdsHold(entries, b);
    assert entries[2] == c && entries[3] == d;
    ParentIs(entries, b, root);
    ParentIs(entries, c, b);
    ParentIs(entries, d, root);
    assert Up(entries, root, 0) == Some(root) && Up(entries, b, 1) == Some(root);
    assert Up(entries, d, 1) == Some(root) && Up(entries, c, 2) == Some(root);
    PosIs(entries, 2);
    PosIs(entries, 3);
    assert Under(entries, d, root) && Under(entries, c, root);
    assert Earlier(entries, root, root, b);
  }
}
