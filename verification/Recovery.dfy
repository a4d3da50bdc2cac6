/** What a replay recovers. */
module Recovery {
  import opened Optional
  import opened Delivery
  import opened DeadLetters
  import opened AtMostOnce
  import opened Losses

  // What a dead-lettered record says, field by field, and that a replay delivers what a live post could not.

  // ----- the fields of a record -----

  /** The record can be routed, its failure was not ambiguous, and it saw no response or one worth a retry. */
  ghost predicate Undelivered(e: Entry, codes: set<int>) {
    && e.Parsed?
    && (exists session :: e.record.session == Some(session) && session != "")
    && (exists eventType :: e.record.eventType == Some(eventType) && eventType != "")
    && (exists item :: e.record.item == Some(item))
    && e.record.ambiguous in {Some(Null), Some(Flag(false)), Some(Number(0)), Some(Text(""))}
    && (e.record.status == Null ||
        exists n :: n in codes && Counts(e.record.status, n))
  }

  /** Main result: these records, and no others, are re-posted. */
  lemma ReplayableExactly(e: Entry, codes: set<int>)
    ensures Replayable(e, codes) <==> Undelivered(e, codes)
  {
    if Replayable(e, codes) && !e.record.status.Null? {
      var n := IntOf(e.record.status).value;
      assert n in codes && Counts(e.record.status, n);
    }
  }

  /** What is left of a record after a re-post: nothing if it was accepted; else the same record, whose classification
      is that of this attempt. */
  ghost predicate LeftOver(e: Entry, o: Outcome, kept: seq<Entry>)
    requires e.Parsed?
  {
    match o
    case Responded(status) => if status < 400 then kept == [] else IsReclassified(e, kept, false, Some(status))
    case Raised(error) =>
      IsReclassified(e, kept, e.record.eventType == Some("external_conversation_item") &&
                              error !in {ConnectError, ConnectTimeout, PoolTimeout}, None)
  }

  predicate IsReclassified(e: Entry, kept: seq<Entry>, ambiguous: bool, status: Option<int>)
    requires e.Parsed?
  {
    && |kept| == 1 && kept[0].Parsed?
    && kept[0].record == e.record.(ambiguous := kept[0].record.ambiguous, status := kept[0].record.status)
    && Says(kept[0].record.ambiguous, ambiguous)
    && (if status.Some? then Counts(kept[0].record.status, status.value) else kept[0].record.status == Null)
  }

  /** The number, or the truth value that equals it. */
  predicate Counts(f: Field, n: int) {
    f == Number(n) || (f == Flag(false) && n == 0) || (f == Flag(true) && n == 1)
  }

  predicate Says(f: Option<Field>, b: bool) {
    f.Some? && Counts(f.value, if b then 1 else 0)
  }

  lemma KeptExactly(e: Entry, codes: set<int>, o: Outcome)
    requires Replayable(e, codes)
    ensures LeftOver(e, o, KeptOf(e, o))
  {
  }

  // ----- redelivery -----

  /** The records before position j that are re-posted before it. */
  ghost function Ahead(entries: seq<Entry>, codes: set<int>, j: nat): set<nat>
    requires j <= |entries|
  {
    set k | 0 <= k < j && Replayable(entries[k], codes)
  }

  lemma {:induction false} AheadCounts(entries: seq<Entry>, codes: set<int>, j: nat)
    requires j <= |entries|
    ensures CountReplayable(entries[..j], codes) == |Ahead(entries, codes, j)|
  {
    if j > 0 {
      AheadCounts(entries, codes, j - 1);
      CountNext(entries, codes, j - 1);
      assert Ahead(entries, codes, j) ==
             Ahead(entries, codes, j - 1) + if Replayable(entries[j - 1], codes) then {j - 1} else {};
    } else {
      assert entries[..0] == [];
    }
  }

  lemma TailDistinct(entries: seq<Entry>, j: nat, i: nat)
    requires Distinct(entries) && j < |entries| && Names(entries[j], i)
    ensures Distinct(entries[1..])
    ensures j > 0 ==> !Names(entries[0], i) && Names(entries[1..][j - 1], i)
    ensures j == 0 ==> forall k :: 0 <= k < |entries[1..]| ==> !Names(entries[1..][k], i)
  {
    forall a, b, x | 0 <= a < b < |entries[1..]| && Names(entries[1..][a], x) ensures !Names(entries[1..][b], x) {
      assert Names(entries[a + 1], x);
    }
    assert j > 0 ==> !Names(entries[0], i);
    if j == 0 {
      var rest := entries[1..];
      forall k | 0 <= k < |rest| ensures !Names(rest[k], i) { assert rest[k] == entries[k + 1]; }
    }
  }

  lemma CountTail(entries: seq<Entry>, codes: set<int>, j: nat)
    requires 0 < j <= |entries|
    ensures CountReplayable(entries[..j], codes) ==
            (if Replayable(entries[0], codes) then 1 else 0) + CountReplayable(entries[1..][..j - 1], codes)
  {
    assert entries[..j][1..] == entries[1..][..j - 1];
  }

  lemma {:induction false} PassDelivers(entries: seq<Entry>, codes: set<int>, net: seq<Attempt>, limit: nat, j: nat,
                                        i: nat)
    requires limit <= |net| && Distinct(entries)
    requires j < |entries| && Names(entries[j], i) && Replayable(entries[j], codes)
    requires CountReplayable(entries[..j], codes) < limit
    requires var a := net[CountReplayable(entries[..j], codes)];
      a.committed && a.outcome.Responded? && a.outcome.status < 400
    ensures Committed(entries, codes, net, limit)[i] > 0 && !OnDisk(Drain(entries, codes, net, limit).kept, i)
  {
    var rest := entries[1..];
    TailDistinct(entries, j, i);
    if j == 0 {
      KeptNames(rest, codes, net[1..], limit - 1, i);
    } else {
      CountTail(entries, codes, j);
      if Replayable(entries[0], codes) {
        PassDelivers(rest, codes, net[1..], limit - 1, j - 1, i);
        FirstTried(entries, codes, net, limit, i);
      } else {
        PassDelivers(rest, codes, net, limit, j - 1, i);
        OnDiskCons(entries[0], Drain(rest, codes, net, limit).kept, i);
      }
    }
  }

  lemma FirstTried(entries: seq<Entry>, codes: set<int>, net: seq<Attempt>, limit: nat, i: nat)
    requires entries != [] && 0 < limit <= |net| && Replayable(entries[0], codes) && !Names(entries[0], i)
    requires !OnDisk(Drain(entries[1..], codes, net[1..], limit - 1).kept, i)
    ensures !OnDisk(Drain(entries, codes, net, limit).kept, i)
  {
    var r := Repost(entries[0], net[0].outcome);
    RefreshNames(entries[0], r);
    OnDiskCons(Refresh(entries[0], r), Drain(entries[1..], codes, net[1..], limit - 1).kept, i);
  }

  /** The record of a post that failed is the last on disk, and it is one to re-post. */
  lemma FailureRecorded(w: World, codes: set<int>, s: Step, used: nat)
    requires Possible(w, codes, s) && s.LivePost? && s.writable && 0 < used <= s.maxAttempts
    requires s.session != "" && s.eventType == "external_conversation_item"
    requires StopsAt(s.net, s.maxAttempts, true, codes, 0, ResultOf(s.net[used - 1].outcome, true), used)
    requires TriesAgain(s.net[used - 1].outcome, true, codes)
    ensures var disk := Apply(w, codes, s).disk;
      |disk| > 0 && Names(disk[|disk| - 1], s.item) && Replayable(disk[|disk| - 1], codes)
  {
    var o := s.net[used - 1].outcome;
    StopsExactly(s.net, s.maxAttempts, true, codes, 0, ResultOf(o, true), used);
    RecordReplayable(s.item, s.session, s.eventType, o, codes);
    LastAppended(w.disk[s.dropped..], Parsed(FailureRecord(s.item, s.session, s.eventType, ResultOf(o, true))));
  }

  lemma LastAppended(disk: seq<Entry>, e: Entry)
    ensures (disk + [e])[|disk + [e]| - 1] == e
  {
  }

  lemma RecordReplayable(item: nat, session: string, eventType: string, o: Outcome, codes: set<int>)
    requires session != "" && eventType != "" && TriesAgain(o, true, codes)
    ensures var e := Parsed(FailureRecord(item, session, eventType, ResultOf(o, true)));
      Names(e, item) && Replayable(e, codes) && !Accepted(ResultOf(o, true))
  {
  }

  /** Main result: an item whose live post ran out of attempts, for want of a connection or on statuses worth a retry,
      is committed once by the first replay that gets to its record and is answered by a 2xx; and the record is gone. */
  lemma FailureRecovers(w: World, codes: set<int>, s: Step, used: nat, net: seq<Attempt>, limit: nat, status: int)
    requires Inv(w, codes) && Possible(w, codes, s) && s.LivePost? && s.writable && 0 < used <= s.maxAttempts
    requires s.session != "" && s.eventType == "external_conversation_item"
    requires StopsAt(s.net, s.maxAttempts, true, codes, 0, ResultOf(s.net[used - 1].outcome, true), used)
    requires TriesAgain(s.net[used - 1].outcome, true, codes)
    requires Possible(Apply(w, codes, s), codes, Replay(net, limit)) && Apply(w, codes, s).disk != []
    requires var (disk, last) := (Apply(w, codes, s).disk, |Apply(w, codes, s).disk| - 1);
      && |Ahead(disk, codes, last)| < limit
      && net[|Ahead(disk, codes, last)|].outcome == Responded(status) && 200 <= status < 300
    ensures var end := Apply(Apply(w, codes, s), codes, Replay(net, limit));
      end.server[s.item] == 1 && !OnDisk(end.disk, s.item)
  {
    FailureRecorded(w, codes, s, used);
    StepKeepsInv(w, codes, s);
    Delivers(Apply(w, codes, s), codes, net, limit, s.item, status);
  }

  lemma Delivers(w: World, codes: set<int>, net: seq<Attempt>, limit: nat, item: nat, status: int)
    requires Inv(w, codes) && Possible(w, codes, Replay(net, limit)) && w.disk != []
    requires item in w.posted && w.posted[item]
    requires Names(w.disk[|w.disk| - 1], item) && Replayable(w.disk[|w.disk| - 1], codes)
    requires |Ahead(w.disk, codes, |w.disk| - 1)| < limit
    requires net[|Ahead(w.disk, codes, |w.disk| - 1)|].outcome == Responded(status) && 200 <= status < 300
    ensures var end := Apply(w, codes, Replay(net, limit)); end.server[item] == 1 && !OnDisk(end.disk, item)
  {
    var last := |w.disk| - 1;
    AheadCounts(w.disk, codes, last);
    assert Honest(net[|Ahead(w.disk, codes, last)|]);
    PassDelivers(w.disk, codes, net, limit, last, item);
    CommittedOnceMore(w, codes, net, limit, item);
  }
}
