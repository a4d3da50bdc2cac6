/** Queue safety. */
module QueueSafety {
  import opened Optional
  import opened QueueModel

  // What every reachable state of the queue satisfies, whatever the interleaving of ticks, routes and task
  // changes: at most one item runs and the run row names it; an item is spawned at most once, and only after
  // each of its prerequisites was resolved as done.

  /** A state the empty queue can reach. */
  ghost predicate Reachable(s: State) {
    exists events :: IsRun(EMPTY, events) && After(EMPTY, events) == s
  }

  // ----- the log as history -----

  predicate IsSpawn(line: LogLine, i: Id) {
    line == LogSpawned(i) || line == LogSpawnFailed(i)
  }

  predicate SpawnLogged(log: seq<LogLine>, i: Id) {
    exists k | 0 <= k < |log| :: IsSpawn(log[k], i)
  }

  predicate DoneLogged(log: seq<LogLine>, n: nat, d: Id)
    requires n <= |log|
  {
    exists j | 0 <= j < n :: log[j] == LogResolved(d, Done)
  }

  ghost predicate SpawnedOnce(log: seq<LogLine>) {
    forall j, k, i {:trigger IsSpawn(log[j], i), IsSpawn(log[k], i)} ::
      0 <= j < |log| && 0 <= k < |log| && IsSpawn(log[j], i) && IsSpawn(log[k], i) ==> j == k
  }

  ghost predicate ResolvedAfterSpawn(log: seq<LogLine>) {
    forall j :: 0 <= j < |log| && log[j].LogResolved? ==> SpawnLogged(log[..j], log[j].id)
  }

  /** At the moment log line `k` spawned `i`, every dep of `i` had been resolved as done. */
  ghost predicate SpawnedAfterDeps(items: map<Id, Item>, log: seq<LogLine>) {
    forall i, k :: i in items && 0 <= k < |log| && IsSpawn(log[k], i) ==>
      forall d | d in items[i].deps :: DoneLogged(log, k, d)
  }

  // ----- the invariant -----

  /** Mutual exclusion: an item is running exactly when the run row points at it. */
  ghost predicate OnlyCurrentRuns(s: State) {
    forall i :: (i in s.items && s.items[i].status == Running) <==> (s.run.Some? && s.run.value.current == Some(i))
  }

  ghost predicate TaskMatchesStatus(items: map<Id, Item>) {
    forall i :: i in items ==>
      && (items[i].status == Pending ==> items[i].task.None?)
      && (items[i].status == Running || items[i].status == Done || items[i].status == Failed ==> items[i].task.Some?)
  }

  ghost predicate SpawnedHaveDepsDone(items: map<Id, Item>) {
    forall i :: i in items && items[i].task.Some? ==> DepsDone(items, i)
  }

  ghost predicate LogMatchesItems(items: map<Id, Item>, log: seq<LogLine>) {
    && (forall i :: i in items ==> (items[i].task.Some? <==> SpawnLogged(log, i)))
    && (forall i :: i in items && items[i].status == Done ==> DoneLogged(log, |log|, i))
  }

  ghost predicate Recorded(items: map<Id, Item>, log: seq<LogLine>) {
    && LogMatchesItems(items, log)
    && SpawnedOnce(log)
    && ResolvedAfterSpawn(log)
    && SpawnedAfterDeps(items, log)
  }

  ghost predicate Inv(s: State) {
    && OnlyCurrentRuns(s)
    && TaskMatchesStatus(s.items)
    && SpawnedHaveDepsDone(s.items)
    && Recorded(s.items, s.log)
  }

  // ----- log growth -----

  lemma SpawnLoggedGrows(log: seq<LogLine>, line: LogLine, i: Id)
    ensures SpawnLogged(log + [line], i) <==> SpawnLogged(log, i) || IsSpawn(line, i)
  {
    var l := log + [line];
    assert l[|log|] == line;
    if SpawnLogged(log, i) {
      var k :| 0 <= k < |log| && IsSpawn(log[k], i);
      assert IsSpawn(l[k], i);
    }
  }

  lemma DoneLoggedGrows(log: seq<LogLine>, line: LogLine, n: nat, d: Id)
    requires n <= |log| && DoneLogged(log, n, d)
    ensures DoneLogged(log + [line], n, d) && DoneLogged(log + [line], |log| + 1, d)
  {
    var k :| 0 <= k < n && log[k] == LogResolved(d, Done);
    assert (log + [line])[k] == LogResolved(d, Done);
  }

  lemma ResolvedAfterSpawnGrows(log: seq<LogLine>, line: LogLine)
    requires ResolvedAfterSpawn(log)
    requires line.LogResolved? ==> SpawnLogged(log, line.id)
    ensures ResolvedAfterSpawn(log + [line])
  {
    var l := log + [line];
    forall j | 0 <= j < |l| && l[j].LogResolved? ensures SpawnLogged(l[..j], l[j].id) {
      assert l[..j] == log[..j];
      assert log[..|log|] == log;
    }
  }

  lemma SpawnedAfterDepsGrows(items: map<Id, Item>, log: seq<LogLine>, line: LogLine)
    requires SpawnedAfterDeps(items, log)
    requires forall i, d :: i in items && IsSpawn(line, i) && d in items[i].deps ==> DoneLogged(log, |log|, d)
    ensures SpawnedAfterDeps(items, log + [line])
  {
    var l := log + [line];
    forall i, k, d | i in items && 0 <= k < |l| && IsSpawn(l[k], i) && d in items[i].deps
      ensures DoneLogged(l, k, d)
    {
      if k < |log| {
        assert IsSpawn(log[k], i);
      }
      DoneLoggedGrows(log, line, k, d);
    }
  }

  lemma SpawnedOnceGrows(log: seq<LogLine>, line: LogLine)
    requires SpawnedOnce(log)
    requires forall i :: IsSpawn(line, i) ==> !SpawnLogged(log, i)
    ensures SpawnedOnce(log + [line])
  {
  }

  /** A line that spawns nothing disturbs no part of the history of `items`. */
  lemma QuietLine(items: map<Id, Item>, log: seq<LogLine>, line: LogLine)
    requires !line.LogSpawned? && !line.LogSpawnFailed?
    requires line.LogResolved? ==> SpawnLogged(log, line.id)
    requires Recorded(items, log)
    ensures Recorded(items, log + [line])
  {
    forall i | i in items ensures items[i].task.Some? <==> SpawnLogged(log + [line], i) {
      SpawnLoggedGrows(log, line, i);
    }
    forall i | i in items && items[i].status == Done ensures DoneLogged(log + [line], |log| + 1, i) {
      DoneLoggedGrows(log, line, |log|, i);
    }
    SpawnedOnceGrows(log, line);
    ResolvedAfterSpawnGrows(log, line);
    SpawnedAfterDepsGrows(items, log, line);
  }

  /** Only statuses other than Done and equal tasks and deps matter to the history. */
  lemma SameHistory(items: map<Id, Item>, items': map<Id, Item>, log: seq<LogLine>)
    requires Recorded(items, log) && items'.Keys == items.Keys
    requires forall i :: i in items ==> items'[i].task == items[i].task && items'[i].deps == items[i].deps
    requires forall i :: i in items && items'[i].status == Done ==> DoneLogged(log, |log|, i)
    ensures Recorded(items', log)
  {
  }

  // ----- each part of a tick keeps the invariant -----

  lemma ResolveKeepsInv(s: State)
    requires Inv(s) && s.run.Some? && !Waiting(s)
    ensures Inv(Resolve(s)) && Resolve(s).run.Some? && Resolve(s).run.value.current.None?
  {
    if s.run.value.current.Some? {
      var c := s.run.value.current.value;
      assert c in s.items && s.items[c].status == Running;
      var v := Verdict(TaskOf(s, c));
      var line := LogResolved(c, v);
      var r := Resolve(s);
      assert r.items == s.items[c := s.items[c].(status := v)] && r.log == s.log + [line];
      QuietLine(s.items, s.log, line);
      assert r.log[|s.log|] == line;
      SameHistory(s.items, r.items, r.log);
      DepsStayDone(s.items, r.items);
    }
  }

  /** Deps that are done stay done when done rows keep their status. */
  lemma DepsStayDone(items: map<Id, Item>, items': map<Id, Item>)
    requires SpawnedHaveDepsDone(items) && items'.Keys == items.Keys
    requires forall i :: i in items ==> items'[i].task == items[i].task && items'[i].deps == items[i].deps
    requires forall i :: IsDone(items, i) ==> IsDone(items', i)
    ensures SpawnedHaveDepsDone(items')
  {
    forall i | i in items' && items'[i].task.Some? ensures DepsDone(items', i) {
      assert DepsDone(items, i);
    }
  }

  lemma CascadeKeepsInv(s: State)
    requires Inv(s)
    ensures Inv(s.(items := Cascade(s.items)))
  {
    SameHistory(s.items, Cascade(s.items), s.log);
    DepsStayDone(s.items, Cascade(s.items));
  }

  lemma SpawnRecorded(items: map<Id, Item>, log: seq<LogLine>, i: Id, item: Item, line: LogLine)
    requires Recorded(items, log) && SpawnedHaveDepsDone(items) && Eligible(items, i) && items[i].task.None?
    requires item.deps == items[i].deps && item.task.Some? && item.status != Done
    requires line == LogSpawned(i) || line == LogSpawnFailed(i)
    ensures Recorded(items[i := item], log + [line]) && SpawnedHaveDepsDone(items[i := item])
  {
    var items' := items[i := item];
    forall j | j in items' ensures items'[j].task.Some? <==> SpawnLogged(log + [line], j) {
      SpawnLoggedGrows(log, line, j);
    }
    forall j | j in items' && items'[j].status == Done ensures DoneLogged(log + [line], |log| + 1, j) {
      DoneLoggedGrows(log, line, |log|, j);
    }
    SpawnedOnceGrows(log, line);
    ResolvedAfterSpawnGrows(log, line);
    assert SpawnedAfterDeps(items', log);
    SpawnedAfterDepsGrows(items', log, line);
    forall j | j in items' && items'[j].task.Some? ensures DepsDone(items', j) {
      assert DepsDone(items, j);
    }
  }

  lemma SpawnKeepsInv(s: State, i: Id, t: TaskId, fate: SpawnFate)
    requires Inv(s) && s.run.Some? && s.run.value.current.None? && Eligible(s.items, i)
    ensures Inv(Spawn(s, i, t, fate))
  {
    var r := Spawn(s, i, t, fate);
    if fate != NotStarted {
      SpawnRecorded(s.items, s.log, i, r.items[i], r.log[|s.log|]);
    }
  }

  lemma TickKeepsInv(s: State, pick: Option<Id>, t: TaskId, fate: SpawnFate)
    requires Inv(s) && ValidPick(s, pick)
    ensures Inv(Tick(s, pick, t, fate))
  {
    if Picking(s) {
      ResolveKeepsInv(s);
      var r := Resolve(s);
      CascadeKeepsInv(r);
      var c := r.(items := Cascade(r.items));
      match pick
      case None => QuietLine(c.items, c.log, LogRunDone);
      case Some(p) =>
        EligibleSurvivesCascade(r.items, p);
        SpawnKeepsInv(c, p, t, fate);
    }
  }

  lemma EligibleSurvivesCascade(items: map<Id, Item>, i: Id)
    requires Eligible(items, i)
    ensures Eligible(Cascade(items), i) && Cascade(items)[i] == items[i]
  {
    assert !HasDeadDep(items, i);
  }

  // ----- the routes keep it -----

  /** `i` is the row made of the k-th new entry. */
  ghost predicate MadeFrom(item: Item, i: Id, added: seq<NewItem>, k: int, base: int, now: int) {
    && 0 <= k < |added| && added[k].titled && added[k].id == i
    && item == Item(base + k + 1, now, added[k].deps, Pending, None)
  }

  lemma {:induction false} InsertShape(items: map<Id, Item>, added: seq<NewItem>, base: int, now: int)
    requires forall k :: 0 <= k < |added| ==> added[k].id !in items
    requires forall j, k :: 0 <= j < k < |added| ==> added[j].id != added[k].id
    ensures var r := Insert(items, added, base, now);
      && (forall i :: i in items ==> i in r && r[i] == items[i])
      && (forall i :: i in r && i !in items ==> exists k :: MadeFrom(r[i], i, added, k, base, now))
      && (forall k :: 0 <= k < |added| && added[k].titled ==> added[k].id in r)
  {
    if added != [] {
      var front, n := added[..|added| - 1], added[|added| - 1];
      InsertShape(items, front, base, now);
      var f := Insert(items, front, base, now);
      var r := Insert(items, added, base, now);
      forall i | i in r && i !in items ensures exists k :: MadeFrom(r[i], i, added, k, base, now) {
        if n.titled && i == n.id {
          assert MadeFrom(r[i], i, added, |added| - 1, base, now);
        } else {
          var k :| MadeFrom(f[i], i, front, k, base, now);
          assert MadeFrom(r[i], i, added, k, base, now);
        }
      }
      forall k | 0 <= k < |added| && added[k].titled ensures added[k].id in r {
        if k < |front| { assert added[k] == front[k]; }
      }
    }
  }

  lemma RenumberShape(items: map<Id, Item>, order: seq<Id>)
    ensures var r := Renumber(items, order).1;
      r.Keys == items.Keys && forall i :: i in items ==> r[i] == items[i].(seqNo := r[i].seqNo)
    ensures 0 <= Renumber(items, order).0 <= |order|
  {
    if order != [] {
      RenumberShape(items, order[..|order| - 1]);
    }
  }

  /** Adding rows, dropping pending rows, editing pending rows and renumbering leave spawned rows alone. */
  lemma EditKeepsInv(s: State, items: map<Id, Item>)
    requires Inv(s)
    requires forall i :: i in s.items && s.items[i].status != Pending ==>
               i in items && items[i] == s.items[i].(seqNo := items[i].seqNo)
    requires forall i :: i in items && (i !in s.items || s.items[i].status == Pending) ==>
               items[i].status == Pending && items[i].task.None? && (i in s.items || FreshId(s, i))
    ensures Inv(s.(items := items))
  {
    forall i | i in items && i !in s.items ensures !SpawnLogged(s.log, i) {
      assert FreshId(s, i);
    }
    forall i | i in items && items[i].task.Some? ensures DepsDone(items, i) {
      assert DepsDone(s.items, i);
    }
    forall i, k | i in items && 0 <= k < |s.log| && IsSpawn(s.log[k], i)
      ensures forall d | d in items[i].deps :: DoneLogged(s.log, k, d)
    {
      assert SpawnLogged(s.log, i);
    }
  }

  lemma StepKeepsInv(s: State, e: Event)
    requires Inv(s) && Possible(s, e)
    ensures Inv(Apply(s, e))
  {
    match e
    case TickEvent(pick, t, fate) => TickKeepsInv(s, pick, t, fate);
    case AddEvent(added, base, now) =>
      InsertShape(s.items, added, base, now);
      EditKeepsInv(s, Insert(s.items, added, base, now));
    case PatchEvent(i, d, q) =>
      if Editable(s, i) { EditKeepsInv(s, s.items[i := Patched(s.items[i], d, q)]); }
    case DeleteEvent(i) =>
      if Editable(s, i) { EditKeepsInv(s, s.items - {i}); }
    case ReorderEvent(order) =>
      RenumberShape(s.items, order);
      EditKeepsInv(s, Renumber(s.items, order).1);
    case StartEvent(ok) => QuietLine(s.items, s.log, LogStart);
    case PauseEvent => QuietLine(s.items, s.log, LogPause);
    case ClearEvent =>
      QuietLine(map[], s.log, LogCleared);
    case TaskEvent(t, st) =>
  }

  lemma {:induction false} RunKeepsInv(s: State, events: seq<Event>)
    requires Inv(s) && IsRun(s, events)
    ensures Inv(After(s, events))
    decreases |events|
  {
    if events != [] {
      StepKeepsInv(s, events[0]);
      RunKeepsInv(Apply(s, events[0]), events[1..]);
    }
  }

  // ----- main results -----

  lemma ReachableInv(s: State)
    requires Reachable(s)
    ensures Inv(s)
  {
    var events :| IsRun(EMPTY, events) && After(EMPTY, events) == s;
    RunKeepsInv(EMPTY, events);
  }

  /** In every reachable state at most one item runs, and the run row names it. */
  lemma MutualExclusion(s: State)
    requires Reachable(s)
    ensures |RunningIds(s.items)| <= 1
    ensures forall i :: i in s.items && s.items[i].status == Running ==> s.run.Some? && s.run.value.current == Some(i)
    ensures s.run.Some? && s.run.value.current.Some? ==>
              s.run.value.current.value in s.items && s.items[s.run.value.current.value].status == Running
  {
    ReachableInv(s);
    if s.run.Some? && s.run.value.current.Some? {
      assert RunningIds(s.items) == {s.run.value.current.value};
    } else {
      assert RunningIds(s.items) == {};
    }
  }

  /**
    Topological safety: an item that was ever given a task was spawned exactly once, its deps are done now,
    and each of them was resolved as done strictly before the spawn.
  */
  lemma SpawnedAfterPrerequisites(s: State, i: Id) returns (at: nat)
    requires Reachable(s) && i in s.items && s.items[i].task.Some?
    ensures at < |s.log| && IsSpawn(s.log[at], i)
    ensures forall k :: 0 <= k < |s.log| && IsSpawn(s.log[k], i) ==> k == at
    ensures forall d :: d in s.items[i].deps ==> IsDone(s.items, d) && DoneLogged(s.log, at, d)
  {
    ReachableInv(s);
    assert SpawnLogged(s.log, i);
    var k :| 0 <= k < |s.log| && IsSpawn(s.log[k], i);
    at := k;
  }

  /** `path` follows deps: each id after the first is a dep of the one before it. */
  ghost predicate IsDepPath(items: map<Id, Item>, path: seq<Id>) {
    && |path| > 0
    && forall k {:trigger path[k]} :: 0 <= k < |path| - 1 ==> path[k] in items && path[k + 1] in items[path[k]].deps
  }

  /** A dep of a spawned item was itself spawned, and earlier. */
  lemma DepSpawnedEarlier(s: State, i: Id, d: Id, at: nat) returns (before: nat)
    requires Inv(s) && i in s.items && d in s.items[i].deps
    requires at < |s.log| && IsSpawn(s.log[at], i)
    ensures d in s.items && before < at && IsSpawn(s.log[before], d)
  {
    assert SpawnLogged(s.log, i);
    assert DepsDone(s.items, i);
    assert DoneLogged(s.log, at, d);
    var j :| 0 <= j < at && s.log[j] == LogResolved(d, Done);
    assert SpawnLogged(s.log[..j], d);
    var k :| 0 <= k < j && IsSpawn(s.log[..j][k], d);
    before := k;
  }

  lemma {:induction false} DepPathGoesBack(s: State, path: seq<Id>, at: nat) returns (end: nat)
    requires Inv(s) && IsDepPath(s.items, path) && |path| > 1
    requires at < |s.log| && IsSpawn(s.log[at], path[0])
    ensures end < at && IsSpawn(s.log[end], path[|path| - 1])
    decreases |path|
  {
    assert path[0] in s.items && path[1] in s.items[path[0]].deps;
    end := DepSpawnedEarlier(s, path[0], path[1], at);
    if |path| > 2 {
      var rest := path[1..];
      assert IsDepPath(s.items, rest) by {
        forall k | 0 <= k < |rest| - 1 ensures rest[k] in s.items && rest[k + 1] in s.items[rest[k]].deps {
          assert rest[k] == path[k + 1] && rest[k + 1] == path[k + 2];
        }
      }
      end := DepPathGoesBack(s, rest, end);
    }
  }

  /** No item on a dependency cycle is ever spawned. */
  lemma CyclesNeverSpawn(s: State, path: seq<Id>)
    requires Reachable(s) && IsDepPath(s.items, path) && |path| > 1 && path[0] == path[|path| - 1]
    ensures path[0] in s.items && s.items[path[0]].task.None?
  {
    ReachableInv(s);
    if s.items[path[0]].task.Some? {
      var at := SpawnedAfterPrerequisites(s, path[0]);
      var end := DepPathGoesBack(s, path, at);
      assert false;
    }
  }
}
