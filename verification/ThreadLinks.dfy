/** The rows, told from the entries alone. */
module ThreadLinks {
  import opened Optional
  import opened Threads
  import opened ThreadRows

  // Which entries make a row and which are folded into one, said of ids, parents and kinds and of nothing else.

  /** `p` is a loaded comment, and `e` a comment that answers it. */
  predicate AnswersTo(entries: seq<Entry>, e: Entry, p: Entry) {
    e.isComment && p in entries && p.isComment && e.parent == Some(p.id)
  }

  ghost predicate HasLoadedParent(entries: seq<Entry>, e: Entry) {
    exists p :: AnswersTo(entries, e, p)
  }

  /** Each entry of the path answers the next. */
  ghost predicate IsAncestry(entries: seq<Entry>, path: seq<Entry>)
    decreases |path|
  {
    |path| > 1 && AnswersTo(entries, path[0], path[1]) && (|path| > 2 ==> IsAncestry(entries, path[1..]))
  }

  ghost predicate Descends(entries: seq<Entry>, e: Entry, root: Entry) {
    exists path :: IsAncestry(entries, path) && path[0] == e && path[|path| - 1] == root
  }

  lemma ReplyExactly(entries: seq<Entry>, e: Entry)
    ensures IsReply(entries, e) <==> HasLoadedParent(entries, e)
  {
    if IsReply(entries, e) {
      var p := CommentIdsFrom(entries, e.parent.value);
      assert AnswersTo(entries, e, p);
    }
    if p :| AnswersTo(entries, e, p) {
      CommentIdsHold(entries, p);
    }
  }

  lemma ParentExactly(entries: seq<Entry>, e: Entry, p: Entry)
    requires UniqueIds(entries)
    ensures ParentOf(entries, e) == Some(p) <==> AnswersTo(entries, e, p)
  {
    ReplyExactly(entries, e);
    if IsReply(entries, e) { ReplyHasParent(entries, e); }
    if AnswersTo(entries, e, p) { ParentIs(entries, e, p); }
  }

  lemma {:induction false} ClimbIsPath(entries: seq<Entry>, e: Entry, n: nat, root: Entry) returns (path: seq<Entry>)
    requires UniqueIds(entries) && n > 0 && Up(entries, e, n) == Some(root)
    ensures IsAncestry(entries, path) && path[0] == e && path[|path| - 1] == root
    decreases n
  {
    var p := ParentOf(entries, e).value;
    ParentExactly(entries, e, p);
    if n == 1 {
      assert Up(entries, p, 0) == Some(p);
      path := [e, p];
    } else {
      var rest := ClimbIsPath(entries, p, n - 1, root);
      path := [e] + rest;
      assert path[1..] == rest;
    }
  }

  lemma {:induction false} PathClimbs(entries: seq<Entry>, path: seq<Entry>)
    requires UniqueIds(entries) && IsAncestry(entries, path)
    ensures Up(entries, path[0], |path| - 1) == Some(path[|path| - 1])
    decreases |path|
  {
    ParentExactly(entries, path[0], path[1]);
    if |path| > 2 {
      PathClimbs(entries, path[1..]);
    } else {
      assert Up(entries, path[1], 0) == Some(path[1]);
    }
  }

  /** Descending is what following parents finds. */
  lemma UnderExactly(entries: seq<Entry>, e: Entry, root: Entry)
    requires UniqueIds(entries)
    ensures Under(entries, e, root) <==> Descends(entries, e, root)
  {
    if Under(entries, e, root) {
      var n: nat :| n > 0 && Up(entries, e, n) == Some(root);
      var path := ClimbIsPath(entries, e, n, root);
    }
    if path :| IsAncestry(entries, path) && path[0] == e && path[|path| - 1] == root {
      PathClimbs(entries, path);
    }
  }

  /** The places of the entries that have no loaded parent, in order. */
  ghost predicate AreTopPlaces(entries: seq<Entry>, n: nat, places: seq<nat>)
    requires n <= |entries|
  {
    && (forall k :: 0 <= k < |places| ==> places[k] < n)
    && (forall j, k :: 0 <= j < k < |places| ==> places[j] < places[k])
    && forall i :: 0 <= i < n ==> (i in places <==> !HasLoadedParent(entries, entries[i]))
  }

  lemma {:induction false} TopPlaces(entries: seq<Entry>, n: nat) returns (places: seq<nat>)
    requires n <= |entries|
    ensures AreTopPlaces(entries, n, places) && |places| == |TopLevel(entries, entries[..n])|
    ensures forall k :: 0 <= k < |places| ==> TopLevel(entries, entries[..n])[k] == entries[places[k]]
  {
    places := [];
    if n > 0 {
      var front := TopPlaces(entries, n - 1);
      assert entries[..n][..n - 1] == entries[..n - 1];
      ReplyExactly(entries, entries[n - 1]);
      places := front + if IsReply(entries, entries[n - 1]) then [] else [n - 1];
      MorePlaces(entries, n, front, places);
    }
  }

  lemma MorePlaces(entries: seq<Entry>, n: nat, front: seq<nat>, places: seq<nat>)
    requires 0 < n <= |entries| && AreTopPlaces(entries, n - 1, front)
    requires places == front + if HasLoadedParent(entries, entries[n - 1]) then [] else [n - 1]
    ensures AreTopPlaces(entries, n, places)
  {
    forall i | 0 <= i < n ensures i in places <==> !HasLoadedParent(entries, entries[i]) {
      assert i in places <==> i in front || (i == n - 1 && !HasLoadedParent(entries, entries[n - 1]));
    }
  }

  /** Main result: there is one row for each activity and for each comment without a loaded parent, in input order;
      under a comment stand the comments that descend from it, all of them, and under an activity nothing. */
  lemma RowsExactly(entries: seq<Entry>, rows: seq<Row>) returns (places: seq<nat>)
    requires UniqueIds(entries) && AreRows(entries, TopLevel(entries, entries), rows)
    ensures AreTopPlaces(entries, |entries|, places) && |rows| == |places|
    ensures forall k :: 0 <= k < |rows| ==> rows[k].entry == entries[places[k]]
    ensures forall k :: 0 <= k < |rows| && !rows[k].entry.isComment ==> rows[k].replies == []
    ensures forall k, x :: 0 <= k < |rows| && rows[k].entry.isComment ==>
              (x in rows[k].replies <==> x in entries && Descends(entries, x, rows[k].entry))
  {
    places := TopPlaces(entries, |entries|);
    assert entries[..|entries|] == entries;
    var top := TopLevel(entries, entries);
    forall k, x | 0 <= k < |rows| && rows[k].entry.isComment
      ensures x in rows[k].replies <==> x in entries && Descends(entries, x, rows[k].entry)
    {
      TopLevelRoot(entries, k);
      assert IsRow(entries, top[k], rows[k]);
      BundleIsSubtree(entries, rows[k].entry, rows[k].replies);
      UnderExactly(entries, x, rows[k].entry);
    }
    forall k | 0 <= k < |rows| ensures rows[k].entry == entries[places[k]] {
      assert IsRow(entries, top[k], rows[k]);
    }
    forall k | 0 <= k < |rows| && !rows[k].entry.isComment ensures rows[k].replies == [] {
      assert IsRow(entries, top[k], rows[k]);
    }
  }
}
