/** Stuck queues. */
module QueueStuck {
  import opened Optional
  import opened QueueModel
  import opened QueueSafety
  import opened QueueConfluence
  import opened QueueProgress

  // A path of pending items that ends in a missing id or in a cycle is never worked off: each item on it waits,
  // or is blocked by the failure of some other dep.  As long as one of them waits, the run does not finish.

  /** Pending items, each a dep of the one before; then a missing id, or one the path has passed. */
  ghost predicate BadPath(items: map<Id, Item>, path: seq<Id>) {
    IsDepPath(items, path) && AllPending(items, path[..|path| - 1]) && EndsBadly(items, path)
  }

  /** Waiting, or blocked by a dead dep. */
  predicate Held(items: map<Id, Item>, i: Id) {
    i in items && (items[i].status == Pending || (items[i].status == Blocked && HasDeadDep(items, i)))
  }

  ghost predicate HeldPath(items: map<Id, Item>, path: seq<Id>) {
    && IsDepPath(items, path) && EndsBadly(items, path)
    && forall k :: 0 <= k < |path| - 1 ==> Held(items, path[k])
  }

  lemma BadIsHeld(items: map<Id, Item>, path: seq<Id>)
    requires BadPath(items, path)
    ensures HeldPath(items, path)
  {
    forall k | 0 <= k < |path| - 1 ensures Held(items, path[k]) {
      assert path[..|path| - 1][k] in PendingIds(items);
    }
  }

  /** Missing, or neither running nor done: a dep on it is not met by the next tick. */
  predicate FarOff(items: map<Id, Item>, d: Id) {
    d in items ==> items[d].status != Running && items[d].status != Done
  }

  /** Each item of a held path has such a dep. */
  lemma HeldHasFarDep(items: map<Id, Item>, path: seq<Id>, k: nat)
    requires HeldPath(items, path) && k < |path| - 1
    ensures path[k] in items && path[k + 1] in items[path[k]].deps && FarOff(items, path[k + 1])
  {
    assert path[k] in items && path[k + 1] in items[path[k]].deps;
    if k + 1 < |path| - 1 {
      assert Held(items, path[k + 1]);
    } else if path[k + 1] in items {
      var j :| 0 <= j < |path| - 1 && path[..|path| - 1][j] == path[k + 1];
      assert Held(items, path[j]);
    }
  }

  // ----- one step -----

  /** What a step does: the dead stay dead, and an item with a far-off dep waits on or is blocked by a dead dep. */
  ghost predicate Settles(items: map<Id, Item>, items': map<Id, Item>) {
    && items'.Keys == items.Keys
    && (forall i :: i in items ==> items'[i].deps == items[i].deps)
    && (forall i :: IsDead(items, i) ==> items'[i].status == items[i].status)
    && forall i, d :: i in items && items[i].status == Pending && d in items[i].deps && FarOff(items, d) ==>
       Held(items', i)
  }

  lemma DeadDepStays(items: map<Id, Item>, items': map<Id, Item>, i: Id)
    requires Settles(items, items') && i in items && HasDeadDep(items, i)
    ensures HasDeadDep(items', i)
  {
    var d :| d in items[i].deps && IsDead(items, d);
    assert IsDead(items', d);
  }

  lemma HeldStays(items: map<Id, Item>, items': map<Id, Item>, path: seq<Id>)
    requires Settles(items, items') && HeldPath(items, path)
    ensures HeldPath(items', path)
  {
    forall k | 0 <= k < |path| - 1 ensures Held(items', path[k]) {
      assert Held(items, path[k]);
      HeldHasFarDep(items, path, k);
      if items[path[k]].status == Blocked {
        DeadDepStays(items, items', path[k]);
      }
    }
  }

  lemma TickSettles(s: State, pick: Option<Id>, t: TaskId, fate: SpawnFate)
    requires ValidPick(s, pick)
    ensures Settles(s.items, Tick(s, pick, t, fate).items)
  {
    if Picking(s) {
      ResolvedThenCascaded(s.items, Resolve(s).items, Tick(s, pick, t, fate).items, pick) by {
        PickedTick(s, pick, t, fate);
        if pick.Some? { EligibleSurvivesCascade(Resolve(s).items, pick.value); }
      }
    }
  }

  /** The in-flight item is resolved; then one level is cascaded, and the pick may leave the waiting. */
  lemma ResolvedThenCascaded(items: map<Id, Item>, resolved: map<Id, Item>, end: map<Id, Item>, pick: Option<Id>)
    requires items.Keys == resolved.Keys == end.Keys
    requires forall i :: i in items ==> resolved[i].deps == items[i].deps && end[i].deps == items[i].deps
    requires forall i :: i in items && items[i].status != Running ==> resolved[i].status == items[i].status
    requires forall i :: i in items && pick != Some(i) ==> end[i].status == Cascade(resolved)[i].status
    requires pick.Some? ==> Eligible(resolved, pick.value)
    ensures Settles(items, end)
  {
    forall i, d | i in items && items[i].status == Pending && d in items[i].deps && FarOff(items, d)
      ensures Held(end, i)
    {
      assert !IsDone(resolved, d);
      if Doomed(resolved, i) {
        var dead :| dead in resolved[i].deps && IsDead(resolved, dead);
        assert IsDead(end, dead);
      }
    }
  }

  lemma StepSettles(s: State, e: Event)
    requires Possible(s, e) && KeepsShape(e)
    ensures Settles(s.items, Apply(s, e).items)
  {
    if e.TickEvent? {
      TickSettles(s, e.pick, e.newTask, e.fate);
    } else {
      QuietEvent(s, e);
    }
  }

  // ----- whole runs -----

  /** Main result: the items of a path that ends badly never run; each waits on, or is blocked by a dead dep. */
  lemma {:induction false} BadPathIsHeld(s: State, events: seq<Event>, path: seq<Id>)
    requires IsRun(s, events) && KeepsShapeRun(s, events) && HeldPath(s.items, path)
    ensures HeldPath(After(s, events).items, path)
    decreases |events|
  {
    if events != [] {
      StepSettles(s, events[0]);
      HeldStays(s.items, Apply(s, events[0]).items, path);
      BadPathIsHeld(Apply(s, events[0]), events[1..], path);
    }
  }

  /** A dead dep is there to stay. */
  lemma {:induction false} DeadDepRemains(s: State, events: seq<Event>, i: Id)
    requires IsRun(s, events) && KeepsShapeRun(s, events) && i in s.items && HasDeadDep(s.items, i)
    ensures i in After(s, events).items && HasDeadDep(After(s, events).items, i)
    decreases |events|
  {
    if events != [] {
      StepSettles(s, events[0]);
      DeadDepStays(s.items, Apply(s, events[0]).items, i);
      DeadDepRemains(Apply(s, events[0]), events[1..], i);
    }
  }

  /** Main result: an item of such a path waits for as long as it has no dead dep, and until then no run finishes. */
  lemma {:induction false} BadPathKeepsOpen(s: State, events: seq<Event>, path: seq<Id>, k: nat)
    requires IsRun(s, events) && KeepsShapeRun(s, events) && HeldPath(s.items, path) && k < |path| - 1
    requires path[k] in After(s, events).items && !HasDeadDep(After(s, events).items, path[k])
    ensures After(s, events).items[path[k]].status == Pending
    ensures !(s.run.Some? && s.run.value.status == Finished) ==>
              !(After(s, events).run.Some? && After(s, events).run.value.status == Finished)
    decreases |events|
  {
    BadPathIsHeld(s, events, path);
    assert Held(After(s, events).items, path[k]);
    if events != [] {
      var s' := Apply(s, events[0]);
      StepSettles(s, events[0]);
      HeldStays(s.items, s'.items, path);
      assert Held(s'.items, path[k]);
      if HasDeadDep(s'.items, path[k]) {
        DeadDepRemains(s', events[1..], path[k]);
      }
      if !(s.run.Some? && s.run.value.status == Finished) {
        StaysUnfinished(s, events[0], path[k]);
      }
      BadPathKeepsOpen(s', events[1..], path, k);
    }
  }

  /** A step that leaves an item pending does not finish the run. */
  lemma StaysUnfinished(s: State, e: Event, i: Id)
    requires Possible(s, e) && KeepsShape(e) && i in Apply(s, e).items && Apply(s, e).items[i].status == Pending
    requires !(s.run.Some? && s.run.value.status == Finished)
    ensures !(Apply(s, e).run.Some? && Apply(s, e).run.value.status == Finished)
  {
    if e.TickEvent? && Picking(s) {
      TickOutcome(s, e.pick, e.newTask, e.fate);
    }
  }

  lemma TickKeepsWaiting(s: State, pick: Option<Id>, t: TaskId, fate: SpawnFate, i: Id)
    requires ValidPick(s, pick) && i in PendingIds(Tick(s, pick, t, fate).items)
    ensures i in PendingIds(s.items)
  {
    if Picking(s) { PickedTick(s, pick, t, fate); }
  }

  /** Nothing goes back to waiting. */
  lemma {:induction false} PendingWasPending(s: State, events: seq<Event>, i: Id)
    requires IsRun(s, events) && KeepsShapeRun(s, events) && i in PendingIds(After(s, events).items)
    ensures i in PendingIds(s.items)
    decreases |events|
  {
    if events != [] {
      var e := events[0];
      PendingWasPending(Apply(s, e), events[1..], i);
      if e.TickEvent? { TickKeepsWaiting(s, e.pick, e.newTask, e.fate, i); } else { QuietEvent(s, e); }
    }
  }

  /** A path that ends badly at the end of a run did so at its start. */
  lemma BadPathWasBad(s: State, events: seq<Event>, path: seq<Id>)
    requires IsRun(s, events) && KeepsShapeRun(s, events) && BadPath(After(s, events).items, path)
    ensures BadPath(s.items, path)
  {
    ShapeKept(s, events);
    var front := path[..|path| - 1];
    forall k | 0 <= k < |front| ensures front[k] in PendingIds(s.items) {
      assert front[k] in PendingIds(After(s, events).items);
      PendingWasPending(s, events, front[k]);
    }
    forall k {:trigger path[k]} | 0 <= k < |path| - 1
      ensures path[k] in s.items && path[k + 1] in s.items[path[k]].deps
    {
      assert front[k] in PendingIds(s.items);
    }
  }

  /** Every item of every path of pending items that ends badly has lost a dep by the end. */
  ghost predicate BadPathsDie(items: map<Id, Item>, end: map<Id, Item>) {
    forall path, k :: BadPath(items, path) && 0 <= k < |path| - 1 ==> path[k] in end && HasDeadDep(end, path[k])
  }

  /** Main result: a run that is over is finished with nothing open, and not stuck, exactly when every item of every
      path of pending items that ended badly has a failed or blocked dep by then. */
  lemma FinishesExactly(s: State, events: seq<Event>)
    requires IsRun(s, events) && KeepsShapeRun(s, events) && Over(After(s, events))
    ensures IsFinished(After(s, events)) <==> BadPathsDie(s.items, After(s, events).items)
  {
    var end := After(s, events);
    if !Unfinished(end.items) {
      forall path, k | BadPath(s.items, path) && 0 <= k < |path| - 1
        ensures path[k] in end.items && HasDeadDep(end.items, path[k])
      {
        BadIsHeld(s.items, path);
        BadPathIsHeld(s, events, path);
        assert Held(end.items, path[k]);
      }
    } else if BadPathsDie(s.items, end.items) {
      StuckHasLivingBadPath(s, events);
    }
  }

  /** A queue that ends up stuck has such a path with an item none of whose deps is dead. */
  lemma StuckHasLivingBadPath(s: State, events: seq<Event>)
    requires IsRun(s, events) && KeepsShapeRun(s, events) && Stuck(After(s, events))
    ensures !BadPathsDie(s.items, After(s, events).items)
  {
    var end := After(s, events);
    var i :| i in PendingIds(end.items);
    var path := StuckHasBadPath(end, i);
    assert BadPath(end.items, path);
    BadPathWasBad(s, events, path);
    assert !Doomed(end.items, path[0]);
    assert 0 < |path| - 1 && path[..|path| - 1][0] == path[0];
  }

  /** Main result: with nothing running and nothing doomed, a queue is stuck exactly when items are pending and each
      starts a path that ends badly. */
  lemma StuckExactly(s: State)
    requires RunningIds(s.items) == {} && forall i :: i in s.items ==> !Doomed(s.items, i)
    ensures Stuck(s) <==>
            PendingIds(s.items) != {} &&
            forall i :: i in PendingIds(s.items) ==> exists path :: BadPath(s.items, path) && path[0] == i
  {
    if Stuck(s) {
      forall i | i in PendingIds(s.items) ensures exists path :: BadPath(s.items, path) && path[0] == i {
        var path := StuckHasBadPath(s, i);
        assert BadPath(s.items, path);
      }
    } else if PendingIds(s.items) != {} {
      var i :| i in s.items && Eligible(s.items, i);
      assert i in PendingIds(s.items);
      forall path | BadPath(s.items, path) ensures path[0] != i {
        BadIsHeld(s.items, path);
        HeldHasFarDep(s.items, path, 0);
        assert !IsDone(s.items, path[1]);
      }
    }
  }

  // ----- a run that finishes over such a path -----

  /** Two open items in an active queue: the first depends on nothing, the second on `deps`. */
  function TwoOpen(deps: set<Id>): State {
    State(map[1 := Item(1, 0, {}, Pending, None), 2 := Item(2, 0, deps, Pending, None)],
          Some(Run(Active, None)), map[], [LogStart])
  }

  lemma TwoOpenReachable(deps: set<Id>)
    ensures Reachable(TwoOpen(deps))
  {
    var first, second := NewItem(1, true, {}), NewItem(2, true, deps);
    var add, start := AddEvent([first, second], 0, 0), StartEvent(true);
    assert add.added[..1] == [first] && [first][..0] == [];
    assert Insert(EMPTY.items, [], 0, 0) == map[];
    assert Insert(EMPTY.items, [first], 0, 0) == map[1 := Item(1, 0, {}, Pending, None)];
    var s := Apply(EMPTY, add);
    assert s.items == TwoOpen(deps).items && 1 in PendingIds(s.items);
    assert Apply(s, start) == TwoOpen(deps);
    RunOfOne(s, start);
    RunGrows(EMPTY, add, [start]);
  }

  lemma FirstStarts(deps: set<Id>, e: Event)
    requires 1 in deps && e == TickEvent(Some(1), 0, Started)
    ensures var s := TwoOpen(deps);
      && Possible(s, e) && Counts(s, e)
      && Apply(s, e).items == s.items[1 := Item(1, 0, {}, Running, Some(0))]
      && Apply(s, e).tasks == map[0 := Queued] && Apply(s, e).run == Some(Run(Active, Some(1)))
  {
    var s := TwoOpen(deps);
    assert Resolve(s) == s && !IsDone(s.items, 1);
    assert Cascade(s.items) == s.items;
  }

  lemma FirstFails(deps: set<Id>, s: State, e: Event)
    requires 1 in deps && s.items == TwoOpen(deps).items[1 := Item(1, 0, {}, Running, Some(0))]
    requires s.run == Some(Run(Active, Some(1))) && s.tasks == map[0 := Ended] && e == TickEvent(None, 1, Started)
    ensures Possible(s, e) && Counts(s, e)
    ensures var s' := Apply(s, e);
      && IsFinished(s')
      && s'.items == map[1 := Item(1, 0, {}, Failed, Some(0)), 2 := Item(2, 0, deps, Blocked, None)]
      && s'.tasks == s.tasks
  {
    var items := Resolve(s).items;
    assert items == map[1 := Item(1, 0, {}, Failed, Some(0)), 2 := Item(2, 0, deps, Pending, None)];
    assert !IsDone(items, 1) && IsDead(items, 1);
    assert Doomed(items, 2);
    assert Cascade(items) == map[1 := Item(1, 0, {}, Failed, Some(0)), 2 := Item(2, 0, deps, Blocked, None)];
  }

  lemma IdleTick(s: State, e: Event)
    requires IsFinished(s) && e == TickEvent(None, 1, Started)
    requires 1 !in s.tasks && forall i :: i in s.items ==> s.items[i].task != Some(1)
    ensures Possible(s, e) && Counts(s, e) && Apply(s, e) == s
  {
  }

  /** The first item fails, the second is blocked by that, whatever else it depends on, and the run is finished. */
  lemma CascadingRun(deps: set<Id>) returns (events: seq<Event>)
    requires 1 in deps
    ensures var s := TwoOpen(deps);
      && Reachable(s) && PendingIds(s.items) == {1, 2} && IsRun(s, events) && KeepsShapeRun(s, events)
      && CountedTicks(s, events) > |PendingIds(s.items)|
      && IsFinished(After(s, events))
      && After(s, events).items ==
         map[1 := Item(1, 0, {}, Failed, Some(0)), 2 := Item(2, 0, deps, Blocked, None)]
  {
    var s, spawn := TwoOpen(deps), TickEvent(Some(1), 0, Started);
    TwoOpenReachable(deps);
    assert PendingIds(s.items) == {1, 2};
    FirstStarts(deps, spawn);
    var rest := FailureEnds(deps, Apply(s, spawn));
    events := [spawn] + rest;
    RunGrows(s, spawn, rest);
  }

  lemma FailureEnds(deps: set<Id>, s: State) returns (events: seq<Event>)
    requires 1 in deps && s.items == TwoOpen(deps).items[1 := Item(1, 0, {}, Running, Some(0))]
    requires s.run == Some(Run(Active, Some(1))) && s.tasks == map[0 := Queued]
    ensures IsRun(s, events) && KeepsShapeRun(s, events) && CountedTicks(s, events) == 2
    ensures IsFinished(After(s, events))
    ensures After(s, events).items ==
            map[1 := Item(1, 0, {}, Failed, Some(0)), 2 := Item(2, 0, deps, Blocked, None)]
  {
    var fail, last := TaskEvent(0, Some(Ended)), TickEvent(None, 1, Started);
    var s1 := Apply(s, fail);
    assert s1 == s.(tasks := map[0 := Ended]);
    FirstFails(deps, s1, last);
    var s2 := Apply(s1, last);
    IdleTick(s2, last);
    RunOfOne(s2, last);
    RunGrows(s1, last, [last]);
    events := [fail] + ([last] + [last]);
    RunGrows(s, fail, [last] + [last]);
  }

  /** One such run: the second item depends on the first and on an id that is not there. */
  lemma FinishesOverBadPath() returns (events: seq<Event>)
    ensures var s := TwoOpen({1, 9});
      && BadPath(s.items, [2, 9]) && Reachable(s) && IsRun(s, events) && KeepsShapeRun(s, events)
      && IsFinished(After(s, events))
  {
    events := CascadingRun({1, 9});
    assert [2, 9][..1] == [2];
  }

  /** An active queue that is stuck: one item, which depends on an id that is not there. */
  lemma StuckReachable() returns (events: seq<Event>)
    ensures IsRun(EMPTY, events) && Ticking(After(EMPTY, events)) && Stuck(After(EMPTY, events))
  {
    var add, start := AddEvent([NewItem(1, true, {2})], 0, 0), StartEvent(true);
    events := [add, start];
    var s := Apply(EMPTY, add);
    assert s.items == map[1 := Item(1, 0, {2}, Pending, None)] by {
      assert add.added[..0] == [];
      assert Insert(EMPTY.items, [], 0, 0) == map[];
    }
    assert 1 in PendingIds(s.items);
    var end := Apply(s, start);
    assert events[1..] == [start] && [start][1..] == [];
    assert After(end, []) == end && After(s, [start]) == end;
    assert 2 in end.items[1].deps && !IsDone(end.items, 2);
  }
}
