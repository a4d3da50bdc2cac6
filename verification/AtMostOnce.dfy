/** At-most-once delivery. */
module AtMostOnce {
  import opened Optional
  import opened Delivery
  import opened DeadLetters

  // At-most-once delivery across process lifetimes: live posts that dead-letter their failures, and startup
  // passes that re-post them, against any network that keeps the server's promise.

  /** The files, what the server has committed (by item, with multiplicity), and the items ever posted. */
  datatype World = World(disk: seq<Entry>, server: multiset<nat>, posted: map<nat, bool>)

  datatype Step =
    /** A live post of a new item.  If its record is due, rotation first drops the oldest `dropped` entries; `writable`
        says whether the record is then written. */
    | LivePost(item: nat, session: string, eventType: string, net: seq<Attempt>, maxAttempts: nat, dropped: nat,
      writable: bool)
    | Replay(net: seq<Attempt>, limit: nat)

  predicate IsConversation(eventType: string) {
    eventType == CONVERSATION_ITEM
  }

  ghost predicate Possible(w: World, codes: set<int>, s: Step) {
    match s
    case LivePost(item, _, _, net, maxAttempts, dropped, _) =>
      item !in w.posted && maxAttempts <= |net| && AllHonest(net) && dropped <= |w.disk|
    case Replay(net, limit) =>
      limit <= |net| && AllHonest(net)
  }

  /** The record a failed live post leaves: the final status if there was one, and whether the failure was ambiguous. */
  function FailureRecord(item: nat, session: string, eventType: string, r: PostResult): Record {
    Record(Some(session), Some(eventType), Some(item), Some(Flag(r.ambiguous)), StatusField(r.response), "")
  }

  /** The commits of one drain, item by item. */
  function Committed(entries: seq<Entry>, codes: set<int>, net: seq<Attempt>, limit: nat): multiset<nat>
    requires limit <= |net|
  {
    if entries == [] then multiset{}
    else if !Replayable(entries[0], codes) || limit == 0 then Committed(entries[1..], codes, net, limit)
    else
      (if net[0].committed then multiset{entries[0].record.item.value} else multiset{}) +
      Committed(entries[1..], codes, net[1..], limit - 1)
  }

  function Times(item: nat, n: nat): multiset<nat> {
    multiset{}[item := n]
  }

  ghost function Apply(w: World, codes: set<int>, s: Step): World
    requires Possible(w, codes, s)
  {
    match s
    case LivePost(item, session, eventType, net, maxAttempts, dropped, writable) =>
      var (r, used) := PostLoop(net, maxAttempts, IsConversation(eventType), codes, 0);
      var disk :=
        if Accepted(r) then w.disk
        else w.disk[dropped..] + if writable then [Parsed(FailureRecord(item, session, eventType, r))] else [];
      World(disk, w.server + Times(item, Commits(net[..used])), w.posted[item := IsConversation(eventType)])
    case Replay(net, limit) =>
      World(Drain(w.disk, codes, net, limit).kept, w.server + Committed(w.disk, codes, net, limit), w.posted)
  }

  ghost predicate IsRun(w: World, codes: set<int>, steps: seq<Step>)
    decreases |steps|
  {
    steps != [] ==> Possible(w, codes, steps[0]) && IsRun(Apply(w, codes, steps[0]), codes, steps[1..])
  }

  ghost function After(w: World, codes: set<int>, steps: seq<Step>): World
    requires IsRun(w, codes, steps)
    decreases |steps|
  {
    if steps == [] then w else After(Apply(w, codes, steps[0]), codes, steps[1..])
  }

  // ----- the invariant -----

  predicate Names(e: Entry, item: nat) {
    e.Parsed? && e.record.item == Some(item)
  }

  /** No two entries name the same item. */
  ghost predicate Distinct(entries: seq<Entry>) {
    forall j, k, i {:trigger Names(entries[j], i), Names(entries[k], i)} ::
      0 <= j < k < |entries| && Names(entries[j], i) ==> !Names(entries[k], i)
  }

  /** Entries name posted items, and are conversation items exactly when the post was. */
  ghost predicate Tracked(entries: seq<Entry>, posted: map<nat, bool>) {
    forall k, i :: 0 <= k < |entries| && Names(entries[k], i) ==> i in posted && (posted[i] <==> IsItem(entries[k]))
  }

  /** A replayable record of a conversation item has not been committed. */
  ghost predicate Uncommitted(entries: seq<Entry>, codes: set<int>, server: multiset<nat>) {
    forall k :: 0 <= k < |entries| && Replayable(entries[k], codes) && IsItem(entries[k]) ==>
      server[entries[k].record.item.value] == 0
  }

  ghost predicate CommittedOnce(server: multiset<nat>, posted: map<nat, bool>) {
    (forall i :: i in server ==> i in posted) && forall i :: i in posted && posted[i] ==> server[i] <= 1
  }

  ghost predicate Inv(w: World, codes: set<int>) {
    Distinct(w.disk) && Tracked(w.disk, w.posted) && Uncommitted(w.disk, codes, w.server) &&
      CommittedOnce(w.server, w.posted)
  }

  // ----- one drain -----

  /** An item no entry names is not committed by the drain. */
  lemma {:induction false} OthersUntouched(entries: seq<Entry>, codes: set<int>, net: seq<Attempt>, limit: nat, i: nat)
    requires limit <= |net| && forall k :: 0 <= k < |entries| ==> !Names(entries[k], i)
    ensures Committed(entries, codes, net, limit)[i] == 0
  {
    if entries != [] {
      assert !Names(entries[0], i);
      if !Replayable(entries[0], codes) || limit == 0 {
        OthersUntouched(entries[1..], codes, net, limit, i);
      } else {
        OthersUntouched(entries[1..], codes, net[1..], limit - 1, i);
      }
    }
  }

  /** Kept entries name only items that entries named before. */
  lemma {:induction false} KeptNames(entries: seq<Entry>, codes: set<int>, net: seq<Attempt>, limit: nat, i: nat)
    requires limit <= |net| && forall k :: 0 <= k < |entries| ==> !Names(entries[k], i)
    ensures forall k :: 0 <= k < |Drain(entries, codes, net, limit).kept| ==>
            !Names(Drain(entries, codes, net, limit).kept[k], i)
  {
    if entries != [] {
      assert !Names(entries[0], i);
      if !Replayable(entries[0], codes) || limit == 0 {
        KeptNames(entries[1..], codes, net, limit, i);
      } else {
        KeptNames(entries[1..], codes, net[1..], limit - 1, i);
      }
    }
  }

  /** One honest re-POST of a conversation item: no commit unless it was delivered or turned ambiguous. */
  lemma RepostCommits(e: Entry, a: Attempt, codes: set<int>)
    requires Honest(a) && Replayable(e, codes) && IsItem(e)
    ensures var r := Repost(e, a.outcome);
      a.committed ==> r.delivered || !Replayable(Refresh(e, r), codes)
  {
  }

  lemma RefreshNames(e: Entry, r: RepostResult)
    requires e.Parsed?
    ensures IsItem(Refresh(e, r)) == IsItem(e) && Refresh(e, r).record.item == e.record.item
  {
  }

  /** What the drain leaves on disk is what the invariant allows. */
  ghost predicate DrainOk(entries: seq<Entry>, codes: set<int>, net: seq<Attempt>, limit: nat, posted: map<nat, bool>,
                          server: multiset<nat>)
    requires limit <= |net|
  {
    var kept := Drain(entries, codes, net, limit).kept;
    var server' := server + Committed(entries, codes, net, limit);
    Distinct(kept) && Tracked(kept, posted) && Uncommitted(kept, codes, server')
  }

  lemma ConsOk(e: Entry, kept: seq<Entry>, codes: set<int>, posted: map<nat, bool>, server: multiset<nat>)
    requires Distinct(kept) && Tracked(kept, posted) && Uncommitted(kept, codes, server)
    requires forall i :: Names(e, i) ==> i in posted && (posted[i] <==> IsItem(e))
    requires forall i, k :: Names(e, i) && 0 <= k < |kept| ==> !Names(kept[k], i)
    requires Replayable(e, codes) && IsItem(e) ==> server[e.record.item.value] == 0
    ensures Distinct([e] + kept) && Tracked([e] + kept, posted) && Uncommitted([e] + kept, codes, server)
  {
    var all := [e] + kept;
    assert forall k :: 1 <= k < |all| ==> all[k] == kept[k - 1];
  }

  /** What the re-POST of one entry commits. */
  function Own(e: Entry, a: Attempt): multiset<nat>
    requires e.Parsed? && e.record.item.Some?
  {
    if a.committed then multiset{e.record.item.value} else multiset{}
  }

  lemma {:induction false} DrainKeepsOk(entries: seq<Entry>, codes: set<int>, net: seq<Attempt>, limit: nat,
                                        posted: map<nat, bool>, server: multiset<nat>)
    requires limit <= |net| && AllHonest(net)
    requires Distinct(entries) && Tracked(entries, posted) && Uncommitted(entries, codes, server)
    ensures DrainOk(entries, codes, net, limit, posted, server)
  {
    if entries != [] {
      var e, rest := entries[0], entries[1..];
      TailOk(entries, codes, posted, server);
      if !Replayable(e, codes) || limit == 0 {
        DrainKeepsOk(rest, codes, net, limit, posted, server);
        HeadFresh(entries, codes, net, limit);
        var kept := Drain(rest, codes, net, limit).kept;
        if Replayable(e, codes) { assert Names(e, e.record.item.value); }
        ConsOk(e, kept, codes, posted, server + Committed(rest, codes, net, limit));
      } else {
        OwnHarmless(e, rest, codes, net[0], server);
        DrainKeepsOk(rest, codes, net[1..], limit - 1, posted, server + Own(e, net[0]));
        HeadFresh(entries, codes, net[1..], limit - 1);
        TriedOk(e, rest, codes, net, limit, posted, server);
      }
    }
  }

  /** The first entry's own commit does not concern the others. */
  lemma OwnHarmless(e: Entry, rest: seq<Entry>, codes: set<int>, a: Attempt, server: multiset<nat>)
    requires Replayable(e, codes) && Uncommitted(rest, codes, server)
    requires forall i, k :: Names(e, i) && 0 <= k < |rest| ==> !Names(rest[k], i)
    ensures Uncommitted(rest, codes, server + Own(e, a))
  {
    forall k | 0 <= k < |rest| && Replayable(rest[k], codes) && IsItem(rest[k])
      ensures (server + Own(e, a))[rest[k].record.item.value] == 0
    {
      assert Names(e, e.record.item.value) && Names(rest[k], rest[k].record.item.value);
    }
  }

  lemma TriedOk(e: Entry, rest: seq<Entry>, codes: set<int>, net: seq<Attempt>, limit: nat, posted: map<nat, bool>,
                server: multiset<nat>)
    requires 0 < limit <= |net| && Honest(net[0]) && Replayable(e, codes)
    requires DrainOk(rest, codes, net[1..], limit - 1, posted, server + Own(e, net[0]))
    requires forall i :: Names(e, i) ==> i in posted && (posted[i] <==> IsItem(e))
    requires IsItem(e) ==> server[e.record.item.value] == 0
    requires var (kept, commits) :=
               (Drain(rest, codes, net[1..], limit - 1).kept, Committed(rest, codes, net[1..], limit - 1));
      && (forall i :: Names(e, i) ==> commits[i] == 0)
      && (forall i, k :: Names(e, i) && 0 <= k < |kept| ==> !Names(kept[k], i))
    ensures DrainOk([e] + rest, codes, net, limit, posted, server)
  {
    var r := Repost(e, net[0].outcome);
    var kept := Drain(rest, codes, net[1..], limit - 1).kept;
    var commits := Committed(rest, codes, net[1..], limit - 1);
    assert ([e] + rest)[1..] == rest;
    assert server + (Own(e, net[0]) + commits) == server + Own(e, net[0]) + commits;
    if !r.delivered {
      var e' := Refresh(e, r);
      RefreshNames(e, r);
      assert forall i :: Names(e', i) ==> Names(e, i);
      if Replayable(e', codes) && IsItem(e') {
        RepostCommits(e, net[0], codes);
        assert Names(e, e.record.item.value);
      }
      ConsOk(e', kept, codes, posted, server + Own(e, net[0]) + commits);
    }
  }

  lemma TailOk(entries: seq<Entry>, codes: set<int>, posted: map<nat, bool>, server: multiset<nat>)
    requires entries != [] && Distinct(entries) && Tracked(entries, posted) && Uncommitted(entries, codes, server)
    ensures Distinct(entries[1..]) && Tracked(entries[1..], posted) && Uncommitted(entries[1..], codes, server)
    ensures forall i :: Names(entries[0], i) ==> i in posted && (posted[i] <==> IsItem(entries[0]))
    ensures forall i, k :: Names(entries[0], i) && 0 <= k < |entries[1..]| ==> !Names(entries[1..][k], i)
  {
    assert forall k :: 0 <= k < |entries[1..]| ==> entries[1..][k] == entries[k + 1];
  }

  /** What the first entry names, draining the rest neither commits nor keeps. */
  lemma HeadFresh(entries: seq<Entry>, codes: set<int>, net: seq<Attempt>, limit: nat)
    requires entries != [] && limit <= |net|
    requires forall i, k :: Names(entries[0], i) && 0 <= k < |entries[1..]| ==> !Names(entries[1..][k], i)
    ensures var (kept, commits) :=
              (Drain(entries[1..], codes, net, limit).kept, Committed(entries[1..], codes, net, limit));
      && (forall i :: Names(entries[0], i) ==> commits[i] == 0)
      && (forall i, k :: Names(entries[0], i) && 0 <= k < |kept| ==> !Names(kept[k], i))
  {
    forall i | Names(entries[0], i)
      ensures Committed(entries[1..], codes, net, limit)[i] == 0
      ensures forall k :: 0 <= k < |Drain(entries[1..], codes, net, limit).kept| ==>
                !Names(Drain(entries[1..], codes, net, limit).kept[k], i)
    {
      OthersUntouched(entries[1..], codes, net, limit, i);
      KeptNames(entries[1..], codes, net, limit, i);
    }
  }

  /** The drain commits an item at most once, and only one that a replayable entry names. */
  lemma {:induction false} DrainCommitsOnce(entries: seq<Entry>, codes: set<int>, net: seq<Attempt>, limit: nat, i: nat)
    requires limit <= |net| && Distinct(entries)
    ensures Committed(entries, codes, net, limit)[i] <= 1
    ensures Committed(entries, codes, net, limit)[i] > 0 ==>
              exists k :: 0 <= k < |entries| && Replayable(entries[k], codes) && Names(entries[k], i)
  {
    if entries != [] {
      var rest := entries[1..];
      assert forall k :: 0 <= k < |rest| ==> rest[k] == entries[k + 1];
      assert Distinct(rest);
      var tried := Replayable(entries[0], codes) && limit > 0;
      var (net', limit') := if tried then (net[1..], limit - 1) else (net, limit);
      DrainCommitsOnce(rest, codes, net', limit', i);
      if Names(entries[0], i) {
        forall k | 0 <= k < |rest| ensures !Names(rest[k], i) {
          assert !Names(entries[k + 1], i);
        }
        OthersUntouched(rest, codes, net', limit', i);
      }
      if Committed(rest, codes, net', limit')[i] > 0 {
        var k :| 0 <= k < |rest| && Replayable(rest[k], codes) && Names(rest[k], i);
        assert Names(entries[k + 1], i);
      }
    }
  }

  // ----- steps keep the invariant -----

  lemma ReplayKeepsInv(w: World, codes: set<int>, net: seq<Attempt>, limit: nat)
    requires Inv(w, codes) && limit <= |net| && AllHonest(net)
    ensures Inv(Apply(w, codes, Replay(net, limit)), codes)
  {
    DrainKeepsOk(w.disk, codes, net, limit, w.posted, w.server);
    var commits := Committed(w.disk, codes, net, limit);
    forall i | i in w.server + commits
      ensures i in w.posted && (w.posted[i] ==> (w.server + commits)[i] <= 1)
    {
      CommittedOnceMore(w, codes, net, limit, i);
    }
  }

  /** A pass commits only posted items, and a conversation item only if it was not committed before. */
  lemma CommittedOnceMore(w: World, codes: set<int>, net: seq<Attempt>, limit: nat, i: nat)
    requires Inv(w, codes) && limit <= |net|
    ensures var n := Committed(w.disk, codes, net, limit)[i];
      n > 0 ==> i in w.posted && n == 1 && (w.posted[i] ==> w.server[i] == 0)
  {
    DrainCommitsOnce(w.disk, codes, net, limit, i);
    if Committed(w.disk, codes, net, limit)[i] > 0 {
      var k :| 0 <= k < |w.disk| && Replayable(w.disk[k], codes) && Names(w.disk[k], i);
    }
  }

  /** What is left on disk and in the server after a live post, apart from the new record. */
  lemma OlderEntriesOk(w: World, codes: set<int>, item: nat, n: nat, isItem: bool, dropped: nat)
    requires Inv(w, codes) && item !in w.posted && dropped <= |w.disk| && (isItem ==> n <= 1)
    ensures var (disk, server, posted) := (w.disk[dropped..], w.server + Times(item, n), w.posted[item := isItem]);
      && Distinct(disk) && Tracked(disk, posted) && Uncommitted(disk, codes, server) && CommittedOnce(server, posted)
      && forall k :: 0 <= k < |disk| ==> !Names(disk[k], item)
  {
    var disk := w.disk[dropped..];
    assert forall k :: 0 <= k < |disk| ==> disk[k] == w.disk[dropped + k];
    assert w.server[item] == 0;
    forall k | 0 <= k < |disk| ensures !Names(disk[k], item) {
      assert Names(w.disk[dropped + k], item) ==> item in w.posted;
    }
    forall k | 0 <= k < |disk| && Replayable(disk[k], codes) && IsItem(disk[k])
      ensures (w.server + Times(item, n))[disk[k].record.item.value] == 0
    {
      assert Names(disk[k], disk[k].record.item.value);
    }
  }

  lemma LivePostKeepsInv(w: World, codes: set<int>, s: Step)
    requires Inv(w, codes) && s.LivePost? && Possible(w, codes, s)
    ensures Inv(Apply(w, codes, s), codes)
  {
    var isItem := IsConversation(s.eventType);
    var (r, used) := PostLoop(s.net, s.maxAttempts, isItem, codes, 0);
    var n := Commits(s.net[..used]);
    assert s.net[..0] == [];
    if isItem {
      PostCommits(s.net, s.maxAttempts, codes, 0);
    }
    if Accepted(r) {
      OlderEntriesOk(w, codes, s.item, n, isItem, 0);
      assert w.disk[0..] == w.disk;
    } else {
      OlderEntriesOk(w, codes, s.item, n, isItem, s.dropped);
      assert w.disk[s.dropped..] + [] == w.disk[s.dropped..];
      var e := Parsed(FailureRecord(s.item, s.session, s.eventType, r));
      assert forall i :: Names(e, i) <==> i == s.item;
      AppendedOk(w.disk[s.dropped..], e, w.posted[s.item := isItem], w.server + Times(s.item, n), codes);
    }
  }

  /** A new entry at the end, naming an item no other entry names. */
  lemma AppendedOk(entries: seq<Entry>, e: Entry, posted: map<nat, bool>, server: multiset<nat>, codes: set<int>)
    requires Distinct(entries) && Tracked(entries, posted) && Uncommitted(entries, codes, server)
    requires forall i :: Names(e, i) ==> i in posted && (posted[i] <==> IsItem(e))
    requires forall i, k :: Names(e, i) && 0 <= k < |entries| ==> !Names(entries[k], i)
    requires Replayable(e, codes) && IsItem(e) ==> server[e.record.item.value] == 0
    ensures Distinct(entries + [e]) && Tracked(entries + [e], posted) && Uncommitted(entries + [e], codes, server)
  {
  }

  lemma StepKeepsInv(w: World, codes: set<int>, s: Step)
    requires Inv(w, codes) && Possible(w, codes, s)
    ensures Inv(Apply(w, codes, s), codes)
  {
    match s
    case LivePost(_, _, _, _, _, _, _) => LivePostKeepsInv(w, codes, s);
    case Replay(net, limit) => ReplayKeepsInv(w, codes, net, limit);
  }

  // ----- main result -----

  const FRESH := World([], multiset{}, map[])

  /** Over any number of live posts and completed replay passes, the server commits each conversation item at most
      once; and a record that a later pass may still re-post has not been committed at all. */
  lemma {:induction false} AtMostOnceDelivery(w: World, codes: set<int>, steps: seq<Step>)
    requires Inv(w, codes) && IsRun(w, codes, steps)
    ensures Inv(After(w, codes, steps), codes)
    decreases |steps|
  {
    if steps != [] {
      StepKeepsInv(w, codes, steps[0]);
      AtMostOnceDelivery(Apply(w, codes, steps[0]), codes, steps[1..]);
    }
  }

  lemma CommittedAtMostOnce(codes: set<int>, steps: seq<Step>, i: nat)
    requires IsRun(FRESH, codes, steps)
    requires i in After(FRESH, codes, steps).posted && After(FRESH, codes, steps).posted[i]
    ensures After(FRESH, codes, steps).server[i] <= 1
  {
    assert Inv(FRESH, codes);
    AtMostOnceDelivery(FRESH, codes, steps);
  }
}
