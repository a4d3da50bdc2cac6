/** How a queue ends. */
module QueueOutcome {
  import opened Optional
  import opened QueueModel
  import opened QueueSafety
  import opened QueueConfluence
  import opened QueueProgress
  import opened QueueStuck

  // How every item ends can be told from the queue at the start and from what each item's own work would come to: an
  // item ends done, or dead, exactly if the rules below force it to.  So can whether the run finishes or gets stuck.

  // ----- the rules -----

  predicate Open(items: map<Id, Item>, i: Id) {
    i in items && !IsTerminal(items[i].status)
  }

  predicate Dead(outcome: map<Id, Status>, i: Id) {
    i in outcome && outcome[i] != Done
  }

  /** Done already, or its own work succeeds and all its deps are in `done`. */
  predicate EndsDone(items: map<Id, Item>, outcome: map<Id, Status>, done: set<Id>, i: Id) {
    || IsDone(items, i)
    || (Open(items, i) && items[i].deps <= done && i in outcome && outcome[i] == Done)
  }

  /** Dead already, a dep is in `dead`, or its own work fails and all its deps are in `done`. */
  predicate EndsDead(items: map<Id, Item>, outcome: map<Id, Status>, done: set<Id>, dead: set<Id>, i: Id) {
    || IsDead(items, i)
    || (Open(items, i) && (items[i].deps * dead != {} || (items[i].deps <= done && Dead(outcome, i))))
  }

  ghost predicate Closed(items: map<Id, Item>, outcome: map<Id, Status>, done: set<Id>, dead: set<Id>) {
    && (forall i :: EndsDone(items, outcome, done, i) ==> i in done)
    && (forall i :: EndsDead(items, outcome, done, dead, i) ==> i in dead)
  }

  /** The rules force the item to end done: it is in every `done` that they close. */
  ghost predicate MustBeDone(items: map<Id, Item>, outcome: map<Id, Status>, i: Id) {
    forall done, dead :: Closed(items, outcome, done, dead) ==> i in done
  }

  ghost predicate MustBeDead(items: map<Id, Item>, outcome: map<Id, Status>, i: Id) {
    forall done, dead :: Closed(items, outcome, done, dead) ==> i in dead
  }

  // ----- nothing else happens -----

  function DoneIds(items: map<Id, Item>): set<Id> {
    set i | i in items && IsDone(items, i)
  }

  function DeadIds(items: map<Id, Item>): set<Id> {
    set i | i in items && IsDead(items, i)
  }

  /** What has been settled so far lies within the sets. */
  ghost predicate Within(items: map<Id, Item>, done: set<Id>, dead: set<Id>) {
    DoneIds(items) <= done && DeadIds(items) <= dead
  }

  lemma RunningWithin(start: map<Id, Item>, s: State, items': map<Id, Item>, outcome: map<Id, Status>, done: set<Id>,
                      dead: set<Id>, i: Id)
    requires Inv(s) && KeepsSettled(start, s.items) && Progressed(s.items, items', outcome)
    requires Closed(start, outcome, done, dead) && Within(s.items, done, dead)
    requires i in s.items && s.items[i].status != Pending
    ensures (IsDone(items', i) ==> i in done) && (IsDead(items', i) ==> i in dead)
  {
    assert Moves(s.items, items', outcome, i);
    if s.items[i].status == Running && IsTerminal(items'[i].status) {
      assert DepsDone(s.items, i);
      forall d | d in start[i].deps ensures d in done {
        assert d in DoneIds(s.items);
      }
      assert EndsDone(start, outcome, done, i) || EndsDead(start, outcome, done, dead, i);
    } else {
      assert i in DoneIds(s.items) <==> IsDone(items', i);
      assert i in DeadIds(s.items) <==> IsDead(items', i);
    }
  }

  lemma PendingWithin(start: map<Id, Item>, s: State, items': map<Id, Item>, outcome: map<Id, Status>, done: set<Id>,
                      dead: set<Id>, i: Id)
    requires Inv(s) && KeepsSettled(start, s.items) && Progressed(s.items, items', outcome)
    requires Closed(start, outcome, done, dead) && Within(s.items, done, dead)
    requires i in s.items && s.items[i].status == Pending
    ensures (IsDone(items', i) ==> i in done) && (IsDead(items', i) ==> i in dead)
  {
    assert Moves(s.items, items', outcome, i);
    assert Open(start, i);
    if items'[i].status == Blocked {
      var d :| d in s.items[i].deps && SettledDead(s.items, items', d);
      RunningWithin(start, s, items', outcome, done, dead, d);
      assert d in start[i].deps * dead;
      assert EndsDead(start, outcome, done, dead, i);
    } else if items'[i].status == Failed {
      forall d | d in start[i].deps ensures d in done {
        assert SettledDone(s.items, items', d);
        RunningWithin(start, s, items', outcome, done, dead, d);
      }
      assert EndsDead(start, outcome, done, dead, i);
    }
  }

  lemma WithinStep(start: map<Id, Item>, s: State, items': map<Id, Item>, outcome: map<Id, Status>, done: set<Id>,
                   dead: set<Id>)
    requires Inv(s) && KeepsSettled(start, s.items) && Progressed(s.items, items', outcome)
    requires Closed(start, outcome, done, dead) && Within(s.items, done, dead)
    ensures Within(items', done, dead)
  {
    forall i | i in items' ensures (IsDone(items', i) ==> i in done) && (IsDead(items', i) ==> i in dead) {
      if s.items[i].status == Pending {
        PendingWithin(start, s, items', outcome, done, dead, i);
      } else {
        RunningWithin(start, s, items', outcome, done, dead, i);
      }
    }
  }

  lemma {:induction false} WithinRun(start: map<Id, Item>, s: State, events: seq<Event>, outcome: map<Id, Status>,
                                     done: set<Id>, dead: set<Id>)
    requires Inv(s) && IsRun(s, events) && OutcomesAreFinal(outcome) && FaithfulRun(s, events, outcome)
    requires KeepsSettled(start, s.items) && Closed(start, outcome, done, dead) && Within(s.items, done, dead)
    ensures Within(After(s, events).items, done, dead)
    decreases |events|
  {
    if events != [] {
      var s' := Apply(s, events[0]);
      StepMoves(s, events[0], outcome);
      StepKeepsInv(s, events[0]);
      WithinStep(start, s, s'.items, outcome, done, dead);
      SettledStays(start, s.items, s'.items, outcome);
      WithinRun(start, s', events[1..], outcome, done, dead);
    }
  }

  // ----- everything forced happens -----

  /** What a state at rest has settled is closed under the rules. */
  lemma RestIsClosed(start: map<Id, Item>, rest: State, outcome: map<Id, Status>)
    requires OutcomesAreFinal(outcome)
    requires AtRest(rest) && Justified(start, rest.items, outcome) && KeepsSettled(start, rest.items)
    ensures Closed(start, outcome, DoneIds(rest.items), DeadIds(rest.items))
  {
    var done, dead := DoneIds(rest.items), DeadIds(rest.items);
    forall i | Open(start, i) && start[i].deps <= done ensures i in outcome && rest.items[i].status == outcome[i] {
      OwnOutcomeAtRest(rest, start, outcome, i);
    }
    forall i | Open(start, i) && start[i].deps * dead != {} ensures rest.items[i].status == Blocked {
      var d :| d in start[i].deps * dead;
      assert IsDead(rest.items, d);
      BlockedAtRest(rest, start, outcome, i);
    }
  }

  /** Main result: at rest, an item is done, or dead, exactly if the rules forced it to be from the start. */
  lemma EndsByRules(s: State, events: seq<Event>, outcome: map<Id, Status>, i: Id)
    requires Inv(s) && OutcomesAreFinal(outcome) && IsRun(s, events) && FaithfulRun(s, events, outcome)
    requires AtRest(After(s, events)) && i in s.items
    ensures IsDone(After(s, events).items, i) <==> MustBeDone(s.items, outcome, i)
    ensures IsDead(After(s, events).items, i) <==> MustBeDead(s.items, outcome, i)
  {
    var end := After(s, events);
    JustifiedRun(s.items, s, events, outcome);
    RestIsClosed(s.items, end, outcome);
    assert MustBeDone(s.items, outcome, i) ==> i in DoneIds(end.items);
    assert MustBeDead(s.items, outcome, i) ==> i in DeadIds(end.items);
    forall done, dead | Closed(s.items, outcome, done, dead)
      ensures (IsDone(end.items, i) ==> i in done) && (IsDead(end.items, i) ==> i in dead)
    {
      StartWithin(s.items, outcome, done, dead);
      WithinRun(s.items, s, events, outcome, done, dead);
      assert IsDone(end.items, i) ==> i in DoneIds(end.items);
      assert IsDead(end.items, i) ==> i in DeadIds(end.items);
    }
  }

  lemma StartWithin(items: map<Id, Item>, outcome: map<Id, Status>, done: set<Id>, dead: set<Id>)
    requires Closed(items, outcome, done, dead)
    ensures Within(items, done, dead)
  {
    forall i | i in DoneIds(items) ensures i in done { assert EndsDone(items, outcome, done, i); }
    forall i | i in DeadIds(items) ensures i in dead { assert EndsDead(items, outcome, done, dead, i); }
  }

  // ----- finished or stuck -----

  lemma OverIsAtRest(s: State)
    requires Over(s)
    ensures AtRest(s)
  {
    if Stuck(s) {
      assert forall i :: i in s.items ==> i !in RunningIds(s.items);
    } else {
      assert forall i :: i in s.items ==> s.items[i].status != Pending && s.items[i].status != Running;
    }
  }

  lemma {:induction false} FaithfulKeepsShape(s: State, events: seq<Event>, outcome: map<Id, Status>)
    requires IsRun(s, events) && FaithfulRun(s, events, outcome)
    ensures KeepsShapeRun(s, events)
    decreases |events|
  {
    if events != [] {
      FaithfulKeepsShape(Apply(s, events[0]), events[1..], outcome);
    }
  }

  /** Main result: whether a run that is over has finished, or is stuck, can be told from its start.  It has finished
      exactly when the rules settle every item, and exactly when they kill a dep of every item on a path of pending
      items that ends in a missing id or in a cycle. */
  lemma FinishesByRules(s: State, events: seq<Event>, outcome: map<Id, Status>)
    requires Inv(s) && OutcomesAreFinal(outcome) && IsRun(s, events) && FaithfulRun(s, events, outcome)
    requires Over(After(s, events))
    ensures IsFinished(After(s, events)) <==>
            forall i :: i in s.items ==> MustBeDone(s.items, outcome, i) || MustBeDead(s.items, outcome, i)
    ensures IsFinished(After(s, events)) <==>
            forall path, k :: BadPath(s.items, path) && 0 <= k < |path| - 1 ==> DepMustDie(s.items, outcome, path[k])
  {
    var end := After(s, events);
    FaithfulKeepsShape(s, events, outcome);
    ShapeKept(s, events);
    OverIsAtRest(end);
    forall i | i in s.items
      ensures IsTerminal(end.items[i].status) <==>
              MustBeDone(s.items, outcome, i) || MustBeDead(s.items, outcome, i)
    {
      EndsByRules(s, events, outcome, i);
    }
    FinishedOrPending(end);
    FinishesExactly(s, events);
    forall path, k | BadPath(s.items, path) && 0 <= k < |path| - 1
      ensures (path[k] in end.items && HasDeadDep(end.items, path[k])) <==> DepMustDie(s.items, outcome, path[k])
    {
      DiesByRules(s, events, outcome, path[k]);
    }
  }

  /** The rules force a dep of the item to be dead. */
  ghost predicate DepMustDie(items: map<Id, Item>, outcome: map<Id, Status>, i: Id) {
    i in items && exists d :: d in items[i].deps && d in items && MustBeDead(items, outcome, d)
  }

  lemma DiesByRules(s: State, events: seq<Event>, outcome: map<Id, Status>, i: Id)
    requires Inv(s) && OutcomesAreFinal(outcome) && IsRun(s, events) && FaithfulRun(s, events, outcome)
    requires AtRest(After(s, events)) && i in s.items
    requires After(s, events).items.Keys == s.items.Keys && After(s, events).items[i].deps == s.items[i].deps
    ensures HasDeadDep(After(s, events).items, i) <==> DepMustDie(s.items, outcome, i)
  {
    var end := After(s, events);
    forall d | d in s.items ensures IsDead(end.items, d) <==> MustBeDead(s.items, outcome, d) {
      EndsByRules(s, events, outcome, d);
    }
    if HasDeadDep(end.items, i) {
      var d :| d in end.items[i].deps && IsDead(end.items, d);
      assert d in s.items[i].deps && MustBeDead(s.items, outcome, d);
    }
    if d :| d in s.items[i].deps && d in s.items && MustBeDead(s.items, outcome, d) {
      assert IsDead(end.items, d);
    }
  }

  lemma FinishedOrPending(s: State)
    requires Over(s)
    ensures IsFinished(s) <==> forall i :: i in s.items ==> IsTerminal(s.items[i].status)
  {
    if Stuck(s) {
      var i :| i in PendingIds(s.items);
      assert !IsTerminal(s.items[i].status);
    }
  }
}
