/** The queue comes to an end. */
module QueueProgress {
  import opened Optional
  import opened QueueModel
  import opened QueueSafety
  import opened QueueConfluence

  // The queue comes to an end.  Every tick that is not waiting for a live task makes progress by a measure,
  // or finds the queue stuck; and the queue is stuck only over a dep that is missing or a cycle of deps.

  /** Every pending item costs a spawn and a resolution, every running one a resolution, the run its last tick. */
  function Measure(s: State): nat {
    2 * |PendingIds(s.items)| + |RunningIds(s.items)| + (if Ticking(s) then 1 else 0)
  }

  /** Something is pending, nothing runs, and no tick will ever pick or block anything. */
  predicate Stuck(s: State) {
    && PendingIds(s.items) != {} && RunningIds(s.items) == {}
    && forall i | i in s.items :: !Eligible(s.items, i) && !Doomed(s.items, i)
  }

  // ----- set sizes under the parts of a tick -----

  lemma ResolveShrinks(s: State)
    requires Inv(s) && s.run.Some? && !Waiting(s) && s.run.value.current.Some?
    ensures PendingIds(Resolve(s).items) == PendingIds(s.items)
    ensures |RunningIds(s.items)| == 1 && RunningIds(Resolve(s).items) == {}
  {
    assert RunningIds(s.items) == {s.run.value.current.value};
  }

  lemma NothingRunsWithoutCurrent(s: State)
    requires Inv(s) && (s.run.Some? ==> s.run.value.current.None?)
    ensures RunningIds(s.items) == {}
  {
  }

  lemma SubsetIsSmaller(a: set<Id>, b: set<Id>)
    requires a <= b
    ensures |a| <= |b| && (a != b ==> |a| < |b|)
  {
    assert b == a + (b - a);
    assert |b| == |a| + |b - a|;
    if a != b {
      assert b - a != {};
    }
  }

  lemma CascadeShrinks(items: map<Id, Item>)
    ensures RunningIds(Cascade(items)) == RunningIds(items)
    ensures PendingIds(Cascade(items)) <= PendingIds(items) && |PendingIds(Cascade(items))| <= |PendingIds(items)|
    ensures |PendingIds(Cascade(items))| == |PendingIds(items)| ==>
              Cascade(items) == items && forall i :: i in items ==> !Doomed(items, i)
  {
    SubsetIsSmaller(PendingIds(Cascade(items)), PendingIds(items));
    if |PendingIds(Cascade(items))| == |PendingIds(items)| {
      forall i | i in items ensures !Doomed(items, i) {
        assert i in PendingIds(items) <==> i in PendingIds(Cascade(items));
      }
    }
  }

  lemma SpawnShrinks(s: State, i: Id, t: TaskId, fate: SpawnFate)
    requires s.run.Some? && i in s.items && s.items[i].status == Pending && fate != NotStarted
    requires RunningIds(s.items) == {}
    ensures Measure(Spawn(s, i, t, fate)) < Measure(s)
  {
    var r := Spawn(s, i, t, fate);
    assert PendingIds(r.items) == PendingIds(s.items) - {i};
    assert RunningIds(r.items) == if fate == Started then {i} else {};
  }

  // ----- one tick -----

  /** Once the in-flight item is out of the way. */
  lemma IdleTickProgress(s: State, pick: Option<Id>, t: TaskId, fate: SpawnFate)
    requires Inv(s) && Ticking(s) && s.run.value.current.None?
    requires ValidPick(s, pick) && fate != NotStarted
    ensures var s' := Tick(s, pick, t, fate);
      Measure(s') < Measure(s) || (s' == s && Stuck(s))
    ensures Stuck(s) ==> Tick(s, pick, t, fate) == s
  {
    NothingRunsWithoutCurrent(s);
    CascadeShrinks(s.items);
    var c := s.(items := Cascade(s.items));
    assert Measure(c) <= Measure(s);
    match pick
    case Some(p) =>
      EligibleSurvivesCascade(s.items, p);
      SpawnShrinks(c, p, t, fate);
    case None =>
      if !Unfinished(c.items) {
        assert Measure(FinishIfIdle(c)) == Measure(c) - 1;
      } else if |PendingIds(c.items)| == |PendingIds(s.items)| {
        assert c == s;
        var i :| i in s.items && (s.items[i].status == Pending || s.items[i].status == Running);
        assert i !in RunningIds(s.items);
        assert i in PendingIds(s.items);
      }
      if Stuck(s) {
        assert c.items == s.items;
        var i :| i in PendingIds(s.items);
        assert Unfinished(c.items);
      }
  }

  /** A tick that starts what it picks waits on a live task, makes progress, or finds the queue stuck. */
  lemma TickProgress(s: State, pick: Option<Id>, t: TaskId, fate: SpawnFate)
    requires Inv(s) && Ticking(s) && ValidPick(s, pick) && fate != NotStarted
    ensures var s' := Tick(s, pick, t, fate);
      (Waiting(s) && s' == s) || Measure(s') < Measure(s) || (s' == s && Stuck(s))
  {
    if !Waiting(s) {
      var r := Resolve(s);
      ResolveKeepsInv(s);
      IdleTickProgress(r, pick, t, fate);
      if s.run.value.current.Some? {
        ResolveShrinks(s);
      }
    }
  }

  /** A tick with no item in flight changes nothing exactly when the queue is stuck. */
  lemma NoChangeMeansStuck(s: State, pick: Option<Id>, t: TaskId, fate: SpawnFate)
    requires Inv(s) && Ticking(s) && s.run.value.current.None? && ValidPick(s, pick) && fate != NotStarted
    ensures Tick(s, pick, t, fate) == s <==> Stuck(s)
  {
    IdleTickProgress(s, pick, t, fate);
  }

  // ----- whole runs -----

  /** A run in which items and deps stay as they are; ticks, starts, pauses, task changes and reorders come as they
      like. */
  ghost predicate KeepsShapeRun(s: State, events: seq<Event>)
    requires IsRun(s, events)
    decreases |events|
  {
    events != [] ==> KeepsShape(events[0]) && KeepsShapeRun(Apply(s, events[0]), events[1..])
  }

  /** A tick of the active run that waits on no live task and, if it picks an item, gets as far as starting it; or any
      tick of a run that is over. */
  ghost predicate Counts(s: State, e: Event) {
    e.TickEvent? && ((Picking(s) && (e.pick.Some? ==> e.fate != NotStarted)) || Over(s))
  }

  ghost function CountedTicks(s: State, events: seq<Event>): nat
    requires IsRun(s, events)
    decreases |events|
  {
    if events == [] then 0
    else (if Counts(s, events[0]) then 1 else 0) + CountedTicks(Apply(s, events[0]), events[1..])
  }

  predicate IsFinished(s: State) {
    s.run.Some? && s.run.value.status == Finished && !Unfinished(s.items)
  }

  ghost predicate Over(s: State) {
    IsFinished(s) || Stuck(s)
  }

  /** Everything but a tick leaves all statuses and deps alone. */
  lemma QuietEvent(s: State, e: Event)
    requires Possible(s, e) && KeepsShape(e) && !e.TickEvent?
    ensures Apply(s, e).items.Keys == s.items.Keys
    ensures forall i :: i in s.items ==>
              Apply(s, e).items[i].deps == s.items[i].deps && Apply(s, e).items[i].status == s.items[i].status
  {
    if e.ReorderEvent? { RenumberShape(s.items, e.order); }
  }

  lemma QuietKeepsOver(s: State, e: Event)
    requires Possible(s, e) && KeepsShape(e) && !e.TickEvent?
    ensures PendingIds(Apply(s, e).items) == PendingIds(s.items) && (Over(s) ==> Over(Apply(s, e)))
  {
    var s' := Apply(s, e);
    QuietEvent(s, e);
    assert PendingIds(s'.items) == PendingIds(s.items) && RunningIds(s'.items) == RunningIds(s.items);
    SameVerdicts(s.items, s'.items);
  }

  lemma SameVerdicts(items: map<Id, Item>, items': map<Id, Item>)
    requires items'.Keys == items.Keys
    requires forall i :: i in items ==> items'[i].deps == items[i].deps && items'[i].status == items[i].status
    ensures forall i :: Eligible(items', i) <==> Eligible(items, i)
    ensures forall i :: Doomed(items', i) <==> Doomed(items, i)
    ensures Unfinished(items') <==> Unfinished(items)
  {
    forall i | i in items ensures HasDeadDep(items', i) <==> HasDeadDep(items, i) {
      assert forall d :: IsDead(items', d) <==> IsDead(items, d);
    }
    forall i | i in items ensures DepsDone(items', i) <==> DepsDone(items, i) {
      assert forall d :: IsDone(items', d) <==> IsDone(items, d);
    }
  }

  /** Once the in-flight item is out of the way, a tick that counts takes an item from the waiting, or finds nothing to
      wait for. */
  lemma IdleTickTakes(s: State, pick: Option<Id>, t: TaskId, fate: SpawnFate)
    requires Inv(s) && Ticking(s) && s.run.value.current.None? && ValidPick(s, pick)
    ensures var s' := Tick(s, pick, t, fate);
      && PendingIds(s'.items) <= PendingIds(s.items) && |PendingIds(s'.items)| <= |PendingIds(s.items)|
      && ((pick.Some? ==> fate != NotStarted) ==> |PendingIds(s'.items)| < |PendingIds(s.items)| || Over(s'))
  {
    CascadeShrinks(s.items);
    match pick
    case Some(p) =>
      EligibleSurvivesCascade(s.items, p);
      SpawnTakes(s.(items := Cascade(s.items)), p, t, fate);
    case None =>
      NothingPicked(s, t, fate);
  }

  lemma SpawnTakes(s: State, i: Id, t: TaskId, fate: SpawnFate)
    requires s.run.Some? && i in PendingIds(s.items)
    ensures var waiting := PendingIds(Spawn(s, i, t, fate).items);
      waiting == PendingIds(s.items) - (if fate == NotStarted then {} else {i}) && |waiting| <= |PendingIds(s.items)|
    ensures fate != NotStarted ==> |PendingIds(Spawn(s, i, t, fate).items)| < |PendingIds(s.items)|
  {
  }

  lemma NothingPicked(s: State, t: TaskId, fate: SpawnFate)
    requires Inv(s) && Ticking(s) && s.run.value.current.None? && ValidPick(s, None)
    ensures var s' := Tick(s, None, t, fate);
      && PendingIds(s'.items) == PendingIds(Cascade(s.items))
      && (|PendingIds(s'.items)| < |PendingIds(s.items)| || Over(s'))
  {
    CascadeShrinks(s.items);
    var s' := Tick(s, None, t, Started);
    assert s' == Tick(s, None, t, fate) && s'.items == Cascade(s.items);
    if |PendingIds(s'.items)| == |PendingIds(s.items)| {
      IdleTickProgress(s, None, t, Started);
      TickOutcome(s, None, t, Started);
    }
  }

  /** A tick never adds to the waiting; one that counts takes some away, or the run is over. */
  lemma AnyTick(s: State, e: Event)
    requires Inv(s) && Possible(s, e) && e.TickEvent?
    ensures |PendingIds(Apply(s, e).items)| <= |PendingIds(s.items)| && (Over(s) ==> Over(Apply(s, e)))
    ensures Counts(s, e) ==> |PendingIds(Apply(s, e).items)| < |PendingIds(s.items)| || Over(Apply(s, e))
  {
    if Picking(s) {
      var r := Resolve(s);
      ResolveKeepsInv(s);
      if s.run.value.current.Some? { ResolveShrinks(s); }
      IdleTickTakes(r, e.pick, e.newTask, e.fate);
      if Stuck(s) {
        StuckHasNoneInFlight(s);
        StuckTick(s, e.pick, e.newTask, e.fate);
      }
    }
  }

  lemma StuckTick(s: State, pick: Option<Id>, t: TaskId, fate: SpawnFate)
    requires Inv(s) && Ticking(s) && s.run.value.current.None? && ValidPick(s, pick) && Stuck(s)
    ensures Tick(s, pick, t, fate) == s
  {
    IdleTickProgress(s, None, t, Started);
  }

  /** A tick leaves the run active, or finishes it with nothing left to do. */
  lemma TickOutcome(s: State, pick: Option<Id>, t: TaskId, fate: SpawnFate)
    requires Picking(s) && ValidPick(s, pick)
    ensures var s' := Tick(s, pick, t, fate); Ticking(s') || (s'.run.value.status == Finished && !Unfinished(s'.items))
    ensures Tick(s, pick, t, fate).run.Some?
  {
  }

  lemma InFlightRuns(s: State)
    requires Inv(s) && s.run.Some? && s.run.value.current.Some?
    ensures s.run.value.current.value in RunningIds(s.items)
  {
  }

  lemma StuckHasNoneInFlight(s: State)
    requires Inv(s) && Stuck(s) && s.run.Some?
    ensures s.run.value.current.None?
  {
    if s.run.value.current.Some? {
      InFlightRuns(s);
    }
  }

  lemma {:induction false} StaysOver(s: State, events: seq<Event>)
    requires Inv(s) && Over(s) && IsRun(s, events) && KeepsShapeRun(s, events)
    ensures Over(After(s, events))
    decreases |events|
  {
    if events != [] {
      if events[0].TickEvent? { AnyTick(s, events[0]); } else { QuietKeepsOver(s, events[0]); }
      StepKeepsInv(s, events[0]);
      StaysOver(Apply(s, events[0]), events[1..]);
    }
  }

  /** Main result: whatever is interleaved, a run is over, finished or stuck, once more ticks have counted than items
      were pending. */
  lemma {:induction false} QueueTerminates(s: State, events: seq<Event>)
    requires Inv(s) && IsRun(s, events) && KeepsShapeRun(s, events)
    requires CountedTicks(s, events) > |PendingIds(s.items)|
    ensures Over(After(s, events))
    decreases |events|
  {
    var s' := Apply(s, events[0]);
    StepKeepsInv(s, events[0]);
    if events[0].TickEvent? { AnyTick(s, events[0]); } else { QuietKeepsOver(s, events[0]); }
    if Over(s') {
      StaysOver(s', events[1..]);
    } else {
      QueueTerminates(s', events[1..]);
    }
  }

  // ----- what being stuck means -----

  /** Deps name rows of the table, and following them always goes down in `rank`. */
  ghost predicate WellFounded(items: map<Id, Item>, rank: map<Id, nat>) {
    forall i, d :: i in items && d in items[i].deps ==>
      d in items && d in rank && i in rank && rank[d] < rank[i]
  }

  /** In a stuck queue every pending item waits for a dep that is missing or pending itself. */
  lemma StuckWaitsFor(s: State, i: Id) returns (d: Id)
    requires Stuck(s) && i in PendingIds(s.items)
    ensures d in s.items[i].deps && (d !in s.items || d in PendingIds(s.items))
  {
    assert !DepsDone(s.items, i) && !HasDeadDep(s.items, i);
    d :| d in s.items[i].deps && !IsDone(s.items, d);
    assert !IsDead(s.items, d);
    assert d !in RunningIds(s.items);
  }

  lemma {:induction false} WellFoundedNeverStuck(s: State, rank: map<Id, nat>, i: Id)
    requires WellFounded(s.items, rank) && i in PendingIds(s.items) && i in rank
    ensures !Stuck(s)
    decreases rank[i]
  {
    if Stuck(s) {
      var d := StuckWaitsFor(s, i);
      WellFoundedNeverStuck(s, rank, d);
    }
  }

  ghost predicate AllPending(items: map<Id, Item>, path: seq<Id>) {
    forall k :: 0 <= k < |path| ==> path[k] in PendingIds(items)
  }

  /** The path ends in a missing id, or comes back to an id it has passed. */
  predicate EndsBadly(items: map<Id, Item>, path: seq<Id>) {
    |path| > 1 && (path[|path| - 1] !in items || path[|path| - 1] in path[..|path| - 1])
  }

  lemma PathSize(items: map<Id, Item>, path: seq<Id>)
    requires AllPending(items, path)
    requires forall j, k :: 0 <= j < k < |path| ==> path[j] != path[k]
    ensures |path| <= |PendingIds(items)|
  {
    var seen := set k | 0 <= k < |path| :: path[k];
    DistinctCount(path);
    SubsetIsSmaller(seen, PendingIds(items));
  }

  lemma {:induction false} DistinctCount(path: seq<Id>)
    requires forall j, k :: 0 <= j < k < |path| ==> path[j] != path[k]
    ensures |set k | 0 <= k < |path| :: path[k]| == |path|
  {
    if path != [] {
      var front, last := path[..|path| - 1], path[|path| - 1];
      DistinctCount(front);
      var a, b := set k | 0 <= k < |front| :: front[k], set k | 0 <= k < |path| :: path[k];
      assert b == a + {last} by {
        forall x | x in b ensures x in a + {last} {
          var k :| 0 <= k < |path| && path[k] == x;
          if k < |front| { assert front[k] == x; }
        }
        forall x | x in a + {last} ensures x in b {
          if x in a {
            var k :| 0 <= k < |front| && front[k] == x;
            assert path[k] == x;
          } else {
            assert path[|path| - 1] == x;
          }
        }
      }
    }
  }

  /** Extends a path of distinct pending items until it ends badly. */
  lemma {:induction false} FollowPath(s: State, path: seq<Id>) returns (bad: seq<Id>)
    requires Stuck(s) && IsDepPath(s.items, path) && AllPending(s.items, path)
    requires forall j, k :: 0 <= j < k < |path| ==> path[j] != path[k]
    ensures IsDepPath(s.items, bad) && bad[0] == path[0] && AllPending(s.items, bad[..|bad| - 1])
    ensures EndsBadly(s.items, bad)
    decreases |PendingIds(s.items)| - |path|
  {
    var d := StuckWaitsFor(s, path[|path| - 1]);
    var longer := path + [d];
    assert longer[..|longer| - 1] == path;
    assert IsDepPath(s.items, longer);
    if d !in s.items || d in path {
      bad := longer;
    } else {
      PathSize(s.items, longer);
      bad := FollowPath(s, longer);
    }
  }

  /** Main result: in a stuck queue, the deps of every pending item lead to a missing id or into a cycle. */
  lemma StuckHasBadPath(s: State, i: Id) returns (path: seq<Id>)
    requires Stuck(s) && i in PendingIds(s.items)
    ensures IsDepPath(s.items, path) && path[0] == i && EndsBadly(s.items, path)
    ensures AllPending(s.items, path[..|path| - 1])
  {
    path := FollowPath(s, [i]);
  }

  /** Main result: with deps that name existing items and form no cycle, the run finishes. */
  lemma QueueFinishes(s: State, events: seq<Event>, rank: map<Id, nat>)
    requires Inv(s) && IsRun(s, events) && KeepsShapeRun(s, events)
    requires CountedTicks(s, events) > |PendingIds(s.items)|
    requires WellFounded(s.items, rank) && s.items.Keys <= rank.Keys
    ensures IsFinished(After(s, events))
  {
    QueueTerminates(s, events);
    ShapeKept(s, events);
    SameShapeNotStuck(s.items, After(s, events), rank);
  }

  /** One pending item without deps, in an active queue. */
  const OPEN := State(map[1 := Item(1, 0, {}, Pending, None)], Some(Run(Active, None)), map[], [LogStart])

  lemma OpenReachable()
    ensures Reachable(OPEN)
  {
    var add, start := AddEvent([NewItem(1, true, {})], 0, 0), StartEvent(true);
    assert add.added[..0] == [];
    assert Insert(EMPTY.items, [], 0, 0) == map[];
    var s := Apply(EMPTY, add);
    assert s.items == OPEN.items && 1 in PendingIds(s.items);
    assert Apply(s, start) == OPEN;
    RunOfOne(s, start);
    RunGrows(EMPTY, add, [start]);
  }

  lemma RunOfOne(s: State, e: Event)
    requires Possible(s, e)
    ensures IsRun(s, [e]) && After(s, [e]) == Apply(s, e)
    ensures CountedTicks(s, [e]) == (if Counts(s, e) then 1 else 0) && (KeepsShape(e) ==> KeepsShapeRun(s, [e]))
  {
    assert [e][1..] == [];
    assert After(Apply(s, e), []) == Apply(s, e);
  }

  lemma RunGrows(s: State, e: Event, events: seq<Event>)
    requires Possible(s, e) && IsRun(Apply(s, e), events)
    ensures IsRun(s, [e] + events) && After(s, [e] + events) == After(Apply(s, e), events)
    ensures CountedTicks(s, [e] + events) == (if Counts(s, e) then 1 else 0) + CountedTicks(Apply(s, e), events)
    ensures KeepsShape(e) && KeepsShapeRun(Apply(s, e), events) ==> KeepsShapeRun(s, [e] + events)
  {
    assert ([e] + events)[1..] == events;
  }

  lemma OpenStarts(e: Event)
    requires e == TickEvent(Some(1), 0, Started)
    ensures Possible(OPEN, e) && Counts(OPEN, e)
    ensures Apply(OPEN, e).items == map[1 := Item(1, 0, {}, Running, Some(0))]
    ensures Apply(OPEN, e).tasks == map[0 := Queued] && Apply(OPEN, e).run == Some(Run(Active, Some(1)))
  {
    assert Resolve(OPEN) == OPEN;
    assert !Doomed(OPEN.items, 1) && Cascade(OPEN.items) == OPEN.items;
  }

  lemma TaskCompletes(s: State, e: Event)
    requires s.tasks == map[0 := Queued] && e == TaskEvent(0, Some(Completed))
    ensures Possible(s, e) && !Counts(s, e) && Apply(s, e) == s.(tasks := map[0 := Completed])
  {
  }

  lemma LastTick(s: State, e: Event)
    requires s.items == map[1 := Item(1, 0, {}, Running, Some(0))] && s.tasks == map[0 := Completed]
    requires s.run == Some(Run(Active, Some(1))) && e == TickEvent(None, 1, Started)
    ensures Possible(s, e) && Counts(s, e)
    ensures IsFinished(Apply(s, e)) && Apply(s, e).items == map[1 := Item(1, 0, {}, Done, Some(0))]
  {
    assert Resolve(s).items == map[1 := Item(1, 0, {}, Done, Some(0))];
  }

  /** A run that meets these terms: the open item is started, completes, and the queue is finished. */
  lemma FinishingRun() returns (events: seq<Event>)
    ensures Reachable(OPEN) && PendingIds(OPEN.items) == {1} && IsRun(OPEN, events) && KeepsShapeRun(OPEN, events)
    ensures CountedTicks(OPEN, events) > |PendingIds(OPEN.items)|
    ensures IsFinished(After(OPEN, events)) && IsDone(After(OPEN, events).items, 1)
    ensures WellFounded(OPEN.items, map[1 := 0]) && OPEN.items.Keys <= (map[1 := 0]).Keys
  {
    OpenReachable();
    assert PendingIds(OPEN.items) == {1};
    var spawn := TickEvent(Some(1), 0, Started);
    OpenStarts(spawn);
    var rest := StartedFinishes(Apply(OPEN, spawn));
    events := [spawn] + rest;
    RunGrows(OPEN, spawn, rest);
  }

  lemma StartedFinishes(s: State) returns (events: seq<Event>)
    requires s.items == map[1 := Item(1, 0, {}, Running, Some(0))] && s.tasks == map[0 := Queued]
    requires s.run == Some(Run(Active, Some(1)))
    ensures IsRun(s, events) && KeepsShapeRun(s, events) && CountedTicks(s, events) == 1
    ensures IsFinished(After(s, events)) && IsDone(After(s, events).items, 1)
  {
    var done, last := TaskEvent(0, Some(Completed)), TickEvent(None, 1, Started);
    TaskCompletes(s, done);
    var s' := Apply(s, done);
    LastTick(s', last);
    RunOfOne(s', last);
    events := [done] + [last];
    RunGrows(s, done, [last]);
  }

  lemma SameShapeNotStuck(items: map<Id, Item>, end: State, rank: map<Id, nat>)
    requires WellFounded(items, rank) && items.Keys <= rank.Keys
    requires end.items.Keys == items.Keys && forall i :: i in items ==> end.items[i].deps == items[i].deps
    ensures !Stuck(end)
  {
    NotStuckWhenWellFounded(end, rank);
  }

  lemma NotStuckWhenWellFounded(s: State, rank: map<Id, nat>)
    requires WellFounded(s.items, rank) && s.items.Keys <= rank.Keys
    ensures !Stuck(s)
  {
    if PendingIds(s.items) != {} {
      var i :| i in PendingIds(s.items);
      WellFoundedNeverStuck(s, rank, i);
    }
  }

  lemma StepShape(s: State, e: Event)
    requires Possible(s, e) && KeepsShape(e)
    ensures Apply(s, e).items.Keys == s.items.Keys
    ensures forall i :: i in s.items ==> Apply(s, e).items[i].deps == s.items[i].deps
  {
    if e.TickEvent? { TickShape(s, e.pick, e.newTask, e.fate); } else { QuietEvent(s, e); }
  }

  lemma TickShape(s: State, pick: Option<Id>, t: TaskId, fate: SpawnFate)
    requires ValidPick(s, pick)
    ensures Tick(s, pick, t, fate).items.Keys == s.items.Keys
    ensures forall i :: i in s.items ==> Tick(s, pick, t, fate).items[i].deps == s.items[i].deps
  {
    if Picking(s) { PickedTick(s, pick, t, fate); }
  }

  lemma {:induction false} ShapeKept(s: State, events: seq<Event>)
    requires IsRun(s, events) && KeepsShapeRun(s, events)
    ensures After(s, events).items.Keys == s.items.Keys
    ensures forall i :: i in s.items ==> After(s, events).items[i].deps == s.items[i].deps
    decreases |events|
  {
    if events != [] {
      StepShape(s, events[0]);
      ShapeKept(Apply(s, events[0]), events[1..]);
    }
  }
}
