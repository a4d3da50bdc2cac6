/** What is lost, and when. */
module Losses {
  import opened Optional
  import opened Delivery
  import opened DeadLetters
  import opened AtMostOnce

  // An item is lost when the server has not committed it and no record of it is left on disk.  A replay loses an item
  // through a redirect, which counts as delivered; a live post loses its own item through a redirect or an unwritten
  // record, and older items through rotation.  Nothing else loses any.

  predicate OnDisk(disk: seq<Entry>, i: nat) {
    exists k | 0 <= k < |disk| :: Names(disk[k], i)
  }

  ghost predicate Lost(w: World, i: nat) {
    i in w.posted && w.posted[i] && w.server[i] == 0 && !OnDisk(w.disk, i)
  }

  ghost predicate NothingLost(w: World) {
    forall i :: i in w.posted && w.posted[i] ==> w.server[i] > 0 || OnDisk(w.disk, i)
  }

  /** A response that is no error and no success. */
  predicate IsRedirect(o: Outcome) {
    o.Responded? && o.status < 400 && !IsSuccess(o.status)
  }

  // ----- replay -----

  /** The j-th entry is tried, and answered by a redirect. */
  predicate Redirected(entries: seq<Entry>, codes: set<int>, net: seq<Attempt>, limit: nat, j: nat)
    requires j < |entries| && limit <= |net|
  {
    var rank := CountReplayable(entries[..j], codes);
    Replayable(entries[j], codes) && rank < limit && IsRedirect(net[rank].outcome)
  }

  /** Every entry that names the item is. */
  ghost predicate AllRedirected(entries: seq<Entry>, codes: set<int>, net: seq<Attempt>, limit: nat, i: nat)
    requires limit <= |net|
  {
    forall j :: 0 <= j < |entries| && Names(entries[j], i) ==> Redirected(entries, codes, net, limit, j)
  }

  lemma LaterRedirected(entries: seq<Entry>, codes: set<int>, net: seq<Attempt>, limit: nat, j: nat)
    requires entries != [] && j < |entries[1..]| && limit <= |net|
    ensures var tried := Replayable(entries[0], codes) && limit > 0;
      Redirected(entries, codes, net, limit, j + 1) <==>
      if tried then Redirected(entries[1..], codes, net[1..], limit - 1, j)
      else Redirected(entries[1..], codes, net, limit, j)
  {
    assert entries[..j + 1] == [entries[0]] + entries[1..][..j];
    assert ([entries[0]] + entries[1..][..j])[1..] == entries[1..][..j];
  }

  lemma HeadThenRest(entries: seq<Entry>, codes: set<int>, net: seq<Attempt>, limit: nat, i: nat)
    requires entries != [] && limit <= |net|
    ensures var tried := Replayable(entries[0], codes) && limit > 0;
      AllRedirected(entries, codes, net, limit, i) <==>
      && (Names(entries[0], i) ==> tried && IsRedirect(net[0].outcome))
      && AllRedirected(entries[1..], codes, if tried then net[1..] else net, if tried then limit - 1 else limit, i)
  {
    var rest := entries[1..];
    var tried := Replayable(entries[0], codes) && limit > 0;
    var net', limit' := if tried then net[1..] else net, if tried then limit - 1 else limit;
    assert entries[..0] == [];
    assert Redirected(entries, codes, net, limit, 0) <==> tried && IsRedirect(net[0].outcome);
    forall j | 0 <= j < |rest|
      ensures Redirected(entries, codes, net, limit, j + 1) <==> Redirected(rest, codes, net', limit', j)
      ensures rest[j] == entries[j + 1]
    {
      LaterRedirected(entries, codes, net, limit, j);
    }
    if AllRedirected(rest, codes, net', limit', i) && (Names(entries[0], i) ==> tried && IsRedirect(net[0].outcome)) {
      forall j | 0 <= j < |entries| && Names(entries[j], i) ensures Redirected(entries, codes, net, limit, j) {
        if j > 0 { assert Names(rest[j - 1], i); }
      }
    }
  }

  lemma OnDiskCons(e: Entry, rest: seq<Entry>, i: nat)
    ensures OnDisk([e] + rest, i) <==> Names(e, i) || OnDisk(rest, i)
  {
    var all := [e] + rest;
    if OnDisk(rest, i) {
      var k :| 0 <= k < |rest| && Names(rest[k], i);
      assert Names(all[k + 1], i);
    }
    if Names(e, i) { assert Names(all[0], i); }
  }

  /** Main result: a pass leaves an item neither committed nor on disk exactly when every record of it is tried and
      answered by a redirect. */
  lemma {:induction false} DrainLosesExactly(entries: seq<Entry>, codes: set<int>, net: seq<Attempt>, limit: nat,
                                             i: nat)
    requires limit <= |net| && AllHonest(net)
    ensures Committed(entries, codes, net, limit)[i] == 0 && !OnDisk(Drain(entries, codes, net, limit).kept, i) <==>
            AllRedirected(entries, codes, net, limit, i)
  {
    if entries != [] {
      var e, rest := entries[0], entries[1..];
      HeadThenRest(entries, codes, net, limit, i);
      if Replayable(e, codes) && limit > 0 {
        DrainLosesExactly(rest, codes, net[1..], limit - 1, i);
        TriedLoses(e, net[0], codes, i);
        var r := Repost(e, net[0].outcome);
        RefreshNames(e, r);
        OnDiskCons(Refresh(e, r), Drain(rest, codes, net[1..], limit - 1).kept, i);
      } else {
        DrainLosesExactly(rest, codes, net, limit, i);
        OnDiskCons(e, Drain(rest, codes, net, limit).kept, i);
      }
    }
  }

  /** One honest re-POST leaves neither a commit nor a record exactly when it is redirected. */
  lemma TriedLoses(e: Entry, a: Attempt, codes: set<int>, i: nat)
    requires Honest(a) && Replayable(e, codes)
    ensures Names(e, i) ==> (Own(e, a)[i] == 0 && Repost(e, a.outcome).delivered <==> IsRedirect(a.outcome))
    ensures !Names(e, i) ==> Own(e, a)[i] == 0
  {
  }

  /** With one record of the item on disk, that record decides. */
  lemma ReplayLosesItem(entries: seq<Entry>, codes: set<int>, net: seq<Attempt>, limit: nat, i: nat, j: nat)
    requires limit <= |net| && AllHonest(net) && Distinct(entries) && j < |entries| && Names(entries[j], i)
    ensures Committed(entries, codes, net, limit)[i] == 0 && !OnDisk(Drain(entries, codes, net, limit).kept, i) <==>
            Redirected(entries, codes, net, limit, j)
  {
    DrainLosesExactly(entries, codes, net, limit, i);
    forall k | 0 <= k < |entries| && Names(entries[k], i) ensures k == j {
    }
  }

  // ----- one step -----

  /** The step loses the item: a redirect, an unwritten record, or rotation. */
  ghost predicate Loses(w: World, codes: set<int>, s: Step, i: nat)
    requires Possible(w, codes, s)
  {
    match s
    case Replay(net, limit) =>
      i in w.posted && w.posted[i] && w.server[i] == 0 && OnDisk(w.disk, i) &&
        AllRedirected(w.disk, codes, net, limit, i)
    case LivePost(item, _, eventType, net, maxAttempts, dropped, writable) =>
      var (r, used) := PostLoop(net, maxAttempts, IsConversation(eventType), codes, 0);
      if i == item then
        IsConversation(eventType) &&
        if Accepted(r) then !IsSuccess(r.response.value) else !writable && Commits(net[..used]) == 0
      else
        && i in w.posted && w.posted[i] && w.server[i] == 0
        && !Accepted(r) && OnDisk(w.disk[..dropped], i) && !OnDisk(w.disk[dropped..], i)
  }

  lemma OnDiskConcat(a: seq<Entry>, b: seq<Entry>, i: nat)
    ensures OnDisk(a + b, i) <==> OnDisk(a, i) || OnDisk(b, i)
  {
    if OnDisk(a, i) {
      var k :| 0 <= k < |a| && Names(a[k], i);
      assert Names((a + b)[k], i);
    }
    if OnDisk(b, i) {
      var k :| 0 <= k < |b| && Names(b[k], i);
      assert Names((a + b)[|a| + k], i);
    }
  }

  lemma ReplayStep(w: World, codes: set<int>, net: seq<Attempt>, limit: nat, i: nat)
    requires limit <= |net| && AllHonest(net)
    ensures Lost(Apply(w, codes, Replay(net, limit)), i) <==> Lost(w, i) || Loses(w, codes, Replay(net, limit), i)
  {
    DrainLosesExactly(w.disk, codes, net, limit, i);
  }

  lemma PostStepOthers(w: World, codes: set<int>, s: Step, i: nat)
    requires s.LivePost? && Possible(w, codes, s) && i != s.item
    ensures Lost(Apply(w, codes, s), i) <==> Lost(w, i) || Loses(w, codes, s, i)
  {
    var (r, used) := PostLoop(s.net, s.maxAttempts, IsConversation(s.eventType), codes, 0);
    var e := Parsed(FailureRecord(s.item, s.session, s.eventType, r));
    OnDiskConcat(w.disk[..s.dropped], w.disk[s.dropped..], i);
    assert w.disk == w.disk[..s.dropped] + w.disk[s.dropped..];
    OnDiskConcat(w.disk[s.dropped..], if s.writable then [e] else [], i);
    assert !Names(e, i);
  }

  lemma PostStepOwn(w: World, codes: set<int>, s: Step)
    requires s.LivePost? && Possible(w, codes, s)
    ensures Lost(Apply(w, codes, s), s.item) ==> Loses(w, codes, s, s.item)
    ensures Inv(w, codes) && Loses(w, codes, s, s.item) ==> Lost(Apply(w, codes, s), s.item)
  {
    var (r, used) := PostLoop(s.net, s.maxAttempts, IsConversation(s.eventType), codes, 0);
    var e := Parsed(FailureRecord(s.item, s.session, s.eventType, r));
    var rest := if Accepted(r) then w.disk else w.disk[s.dropped..];
    assert s.net[..0] == [];
    if IsConversation(s.eventType) {
      PostCommits(s.net, s.maxAttempts, codes, 0);
    }
    if s.writable && !Accepted(r) {
      assert Names([e][0], s.item);
    }
    OnDiskConcat(rest, if s.writable then [e] else [], s.item);
    OnDiskConcat(w.disk[..s.dropped], w.disk[s.dropped..], s.item);
    assert w.disk == w.disk[..s.dropped] + w.disk[s.dropped..];
    if Inv(w, codes) {
      NewIsNotOnDisk(w, codes, s.item);
    }
  }

  lemma NewIsNotOnDisk(w: World, codes: set<int>, item: nat)
    requires Inv(w, codes) && item !in w.posted
    ensures !OnDisk(w.disk, item) && w.server[item] == 0
  {
  }

  /** Main result: what a step has lost was lost before, or the step loses it; and the other way round in any world that
      live posts and replays lead to. */
  lemma StepLosesExactly(w: World, codes: set<int>, s: Step, i: nat)
    requires Possible(w, codes, s)
    ensures Lost(Apply(w, codes, s), i) ==> Lost(w, i) || Loses(w, codes, s, i)
    ensures Inv(w, codes) && (Lost(w, i) || Loses(w, codes, s, i)) ==> Lost(Apply(w, codes, s), i)
  {
    match s
    case Replay(net, limit) => ReplayStep(w, codes, net, limit, i);
    case LivePost(item, _, _, _, _, _, _) =>
      if i == item { PostStepOwn(w, codes, s); } else { PostStepOthers(w, codes, s, i); }
  }

  // ----- runs -----

  ghost predicate RunLoses(w: World, codes: set<int>, steps: seq<Step>, i: nat)
    requires IsRun(w, codes, steps)
    decreases |steps|
  {
    steps != [] && (Loses(w, codes, steps[0], i) || RunLoses(Apply(w, codes, steps[0]), codes, steps[1..], i))
  }

  lemma {:induction false} LossHasCause(w: World, codes: set<int>, steps: seq<Step>, i: nat)
    requires IsRun(w, codes, steps) && Lost(After(w, codes, steps), i)
    ensures Lost(w, i) || RunLoses(w, codes, steps, i)
    decreases |steps|
  {
    if steps != [] {
      LossHasCause(Apply(w, codes, steps[0]), codes, steps[1..], i);
      StepLosesExactly(w, codes, steps[0], i);
    }
  }

  /** Main result: over any run from a world live posts and replays lead to, an item ends up lost exactly when it was
      lost before or some step loses it. */
  lemma {:induction false} LostExactly(w: World, codes: set<int>, steps: seq<Step>, i: nat)
    requires Inv(w, codes) && IsRun(w, codes, steps)
    ensures Lost(After(w, codes, steps), i) <==> Lost(w, i) || RunLoses(w, codes, steps, i)
    decreases |steps|
  {
    if steps != [] {
      StepKeepsInv(w, codes, steps[0]);
      StepLosesExactly(w, codes, steps[0], i);
      LostExactly(Apply(w, codes, steps[0]), codes, steps[1..], i);
    }
  }

  /** Main result: from the empty world, nothing is lost exactly when no step loses anything. */
  lemma NothingLostExactly(codes: set<int>, steps: seq<Step>)
    requires IsRun(FRESH, codes, steps)
    ensures NothingLost(After(FRESH, codes, steps)) <==> forall i :: !RunLoses(FRESH, codes, steps, i)
  {
    assert Inv(FRESH, codes);
    forall i ensures Lost(After(FRESH, codes, steps), i) <==> RunLoses(FRESH, codes, steps, i) {
      LostExactly(FRESH, codes, steps, i);
    }
    var end := After(FRESH, codes, steps);
    if NothingLost(end) {
      forall i ensures !RunLoses(FRESH, codes, steps, i) {
        assert !Lost(end, i);
      }
    } else {
      var i :| i in end.posted && end.posted[i] && end.server[i] == 0 && !OnDisk(end.disk, i);
      assert Lost(end, i);
      assert RunLoses(FRESH, codes, steps, i);
      assert exists i :: RunLoses(FRESH, codes, steps, i);
    }
  }

  // ----- runs that lose nothing -----

  predicate NoRedirect(net: seq<Attempt>) {
    forall k | 0 <= k < |net| :: !IsRedirect(net[k].outcome)
  }

  /** The disk takes every record, nothing rotates out, and no response is a redirect. */
  predicate Gentle(s: Step) {
    match s
    case LivePost(_, _, _, net, _, dropped, writable) => NoRedirect(net) && dropped == 0 && writable
    case Replay(net, _) => NoRedirect(net)
  }

  /** A response handed back was the outcome of the last attempt. */
  lemma {:induction false} ResponseSeen(net: seq<Attempt>, maxAttempts: nat, codes: set<int>, used: nat)
    requires used <= maxAttempts <= |net|
    ensures var (r, end) := PostLoop(net, maxAttempts, true, codes, used);
      r.response.Some? ==> end > 0 && net[end - 1].outcome == Responded(r.response.value)
    decreases maxAttempts - used
  {
    if used < maxAttempts {
      ResponseSeen(net, maxAttempts, codes, used + 1);
    }
  }

  lemma GentleLosesNothing(w: World, codes: set<int>, s: Step, i: nat)
    requires Possible(w, codes, s) && Gentle(s)
    ensures !Loses(w, codes, s, i)
  {
    match s
    case Replay(net, limit) =>
      if OnDisk(w.disk, i) {
        var j :| 0 <= j < |w.disk| && Names(w.disk[j], i);
        assert !Redirected(w.disk, codes, net, limit, j);
      }
    case LivePost(_, _, eventType, net, maxAttempts, _, _) =>
      assert w.disk[..0] == [];
      ResponseSeen(net, maxAttempts, codes, 0);
  }

  lemma {:induction false} GentleRun(w: World, codes: set<int>, steps: seq<Step>, i: nat)
    requires IsRun(w, codes, steps) && forall k :: 0 <= k < |steps| ==> Gentle(steps[k])
    ensures !RunLoses(w, codes, steps, i)
    decreases |steps|
  {
    if steps != [] {
      GentleLosesNothing(w, codes, steps[0], i);
      GentleRun(Apply(w, codes, steps[0]), codes, steps[1..], i);
    }
  }

  /** Over gentle runs every conversation item ever posted is committed or still on disk. */
  lemma NothingIsLost(w: World, codes: set<int>, steps: seq<Step>)
    requires NothingLost(w) && IsRun(w, codes, steps) && forall k :: 0 <= k < |steps| ==> Gentle(steps[k])
    ensures NothingLost(After(w, codes, steps))
  {
    var end := After(w, codes, steps);
    forall i | i in end.posted && end.posted[i] ensures end.server[i] > 0 || OnDisk(end.disk, i) {
      if Lost(end, i) {
        LossHasCause(w, codes, steps, i);
        GentleRun(w, codes, steps, i);
      }
    }
  }

  /** A redirect counts as delivered: the record goes, and the item was never committed. */
  lemma RedirectLoses(codes: set<int>) returns (steps: seq<Step>)
    ensures IsRun(FRESH, codes, steps) && !NothingLost(After(FRESH, codes, steps))
  {
    var refused, redirect := Attempt(Raised(ConnectError), false), Attempt(Responded(302), false);
    var post := LivePost(0, "s", CONVERSATION_ITEM, [refused], 1, 0, true);
    var replay := Replay([redirect], 1);
    steps := [post, replay];
    var w1 := Apply(FRESH, codes, post);
    assert w1.disk == [Parsed(FailureRecord(0, "s", CONVERSATION_ITEM, PostResult(None, false)))];
    assert [refused][..1] == [refused] && Commits([refused]) == 0 by { assert [refused][1..] == []; }
    assert w1.disk[1..] == [];
    assert Drain(w1.disk, codes, [redirect], 1).kept == [];
    assert steps[1..] == [replay] && [replay][1..] == [];
    var w2 := Apply(w1, codes, replay);
    assert PostLoop([refused], 1, true, codes, 0) == (PostResult(None, false), 1);
    assert w1.server[0] == 0;
    assert Committed(w1.disk, codes, [redirect], 1) == multiset{} by {
      assert Committed(w1.disk[1..], codes, [redirect][1..], 0) == multiset{};
    }
    assert w2.posted[0] && w2.server[0] == 0 && !OnDisk(w2.disk, 0);
    assert After(w2, codes, []) == w2;
    assert After(w1, codes, [replay]) == w2;
    assert After(FRESH, codes, steps) == w2;
  }
}
