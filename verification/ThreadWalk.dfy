/** When the walk over replies ends. */
module ThreadWalk {
  import opened Optional
  import opened IdWalk
  import opened Threads

  // The walk follows ids, so with repeated ids it may meet one again.  It ends exactly when no chain of replies from
  // its start, id to id, comes back to an id it has passed; with unique ids none does.

  // ----- walking the replies -----

  /** Main result: the walk from an id ends exactly when no chain of replies from it loops. */
  lemma WalkEndsExactly(entries: seq<Entry>, id: Id)
    ensures (exists n: nat :: QueueAfter(Replies(entries), [id], n) == []) <==> !Loops(Replies(entries), id)
  {
    forall i, j | j in Replies(entries)(i) ensures j in CommentIds(entries) + {id} {
      var e := KidIsReply(entries, i, j);
    }
    EndsExactly(Replies(entries), id, CommentIds(entries) + {id});
  }

  /** Main result: a comment has a bundle, all that the walk from it collects, exactly when no chain of replies from it
      loops. */
  lemma BundleExactly(entries: seq<Entry>, root: Entry)
    ensures (exists out :: IsBundle(entries, root, out)) <==> !Loops(Replies(entries), root.id)
  {
    WalkEndsExactly(entries, root.id);
    var next := Replies(entries);
    if n: nat :| QueueAfter(next, [root.id], n) == [] {
      var first := FirstEmpty(next, [root.id], n);
      WalkEnds(entries, root, first);
    }
    if out :| IsBundle(entries, root, out) {
      BundleEnds(entries, root, out);
    }
  }

  /** The turn that empties the queue. */
  lemma {:induction false} FirstEmpty(next: Id -> seq<Id>, queue: seq<Id>, n: nat) returns (first: nat)
    requires QueueAfter(next, queue, n) == []
    ensures QueueAfter(next, queue, first) == [] && (first > 0 ==> QueueAfter(next, queue, first - 1) != [])
  {
    if n > 0 && QueueAfter(next, queue, n - 1) == [] {
      first := FirstEmpty(next, queue, n - 1);
    } else {
      first := n;
    }
  }

  lemma BundleEnds(entries: seq<Entry>, root: Entry, out: seq<Entry>)
    requires IsBundle(entries, root, out)
    ensures exists n: nat :: QueueAfter(Replies(entries), [root.id], n) == []
  {
    if QueueAfter(Replies(entries), [root.id], |out|) != [] {
      var queue, all := QueueIsUnexpanded(entries, root, 1 + |out|);
      assert QueueAfter(Replies(entries), [root.id], 1 + |out|) == [];
    }
  }

  // ----- unique ids -----

  /** With unique ids no chain from a root loops, so there the walk always ends. */
  lemma UniqueNeverLoops(entries: seq<Entry>, root: Entry)
    requires UniqueIds(entries) && IsRoot(entries, root)
    ensures !Loops(Replies(entries), root.id)
  {
    var next := Replies(entries);
    forall i, i', d | d in next(i) && d in next(i') ensures i == i' {
      var e := KidIsReply(entries, i, d);
      var f := KidIsReply(entries, i', d);
      SameIdSameComment(entries, e, f);
    }
    forall i ensures root.id !in next(i) {
      if root.id in next(i) {
        var e := KidIsReply(entries, i, root.id);
        SameIdSameComment(entries, e, root);
      }
    }
    forall path | IsChain(next, path) && path[0] == root.id ensures !LoopsBy(next, root.id, path) {
      var last := |path| - 1;
      forall j | 0 <= j < last ensures path[j] != path[last] {
        NeverTwice(next, path, j, last);
      }
      assert forall x :: x in path[..last] ==> exists j :: 0 <= j < last && path[j] == x;
    }
  }

  lemma UniqueWalksEnd(entries: seq<Entry>)
    requires UniqueIds(entries)
    ensures WalksEnd(entries)
  {
    forall e | IsRoot(entries, e) ensures !Loops(Replies(entries), e.id) {
      UniqueNeverLoops(entries, e);
    }
  }

  // ----- repeated ids -----

  /** Two comments under one id, the second replying to it: the walk from the first never empties its queue. */
  lemma DuplicateIdLoops(n: nat) returns (entries: seq<Entry>)
    ensures entries == [Entry(1, true, None, 0), Entry(1, true, Some(1), 1)]
    ensures !UniqueIds(entries) && IsRoot(entries, entries[0])
    ensures QueueAfter(Replies(entries), [1], n) == [1]
  {
    var a, b := Entry(1, true, None, 0), Entry(1, true, Some(1), 1);
    entries := [a, b];
    assert entries[..1] == [a] && [a][..0] == [];
    assert entries[0].id == entries[1].id;
    CommentIdsHold(entries, a);
    assert Kids(entries, [a], 1) == [];
    assert Kids(entries, entries, 1) == [b];
    assert IdsOf([b]) == [1] by { assert [b][1..] == []; }
    SameQueue(Replies(entries), n);
  }

  lemma {:induction false} SameQueue(next: Id -> seq<Id>, n: nat)
    requires next(1) == [1]
    ensures QueueAfter(next, [1], n) == [1]
  {
    if n > 0 {
      assert [1][1..] + [1] == [1];
      SameQueue(next, n - 1);
    }
  }

  /** Three comments, two of them under one id: the walk ends after two turns all the same. */
  lemma DuplicateIdsMayEnd() returns (entries: seq<Entry>)
    ensures entries == [Entry(1, true, None, 0), Entry(1, true, None, 1), Entry(2, true, Some(1), 2)]
    ensures !UniqueIds(entries) && QueueAfter(Replies(entries), [1], 2) == []
  {
    var a, b, c := Entry(1, true, None, 0), Entry(1, true, None, 1), Entry(2, true, Some(1), 2);
    entries := [a, b, c];
    assert entries[0].id == entries[1].id;
    CommentIdsHold(entries, a);
    assert entries[..2] == [a, b] && [a, b][..1] == [a] && [a][..0] == [];
    assert Kids(entries, [], 1) == [] && Kids(entries, [], 2) == [];
    assert Kids(entries, [a], 1) == [] && Kids(entries, [a, b], 1) == [];
    assert Kids(entries, [a], 2) == [] && Kids(entries, [a, b], 2) == [];
    assert Kids(entries, entries, 1) == [c] && Kids(entries, entries, 2) == [];
    assert IdsOf([c]) == [2] by { assert [c][1..] == []; }
    assert [1][1..] + [2] == [2] && [2][1..] + [] == [];
    assert QueueAfter(Replies(entries), [2], 1) == [];
  }
}
