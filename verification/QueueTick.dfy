/** One tick, told from the rows alone. */
module QueueTick {
  import opened Optional
  import opened QueueModel

  // What a tick makes of each row, said of the rows of the tables before and after it and of nothing else.

  /** The item's task has a row, and that row has this status. */
  predicate Reads(s: State, i: Id, st: TaskStatus) {
    i in s.items && s.items[i].task.Some? && s.items[i].task.value in s.tasks && s.tasks[s.items[i].task.value] == st
  }

  predicate InFlight(s: State, c: Id) {
    s.run.Some? && s.run.value.current == Some(c) && c in s.items && s.items[c].status == Running
  }

  predicate AtWork(s: State, c: Id) {
    InFlight(s, c) && (Reads(s, c, Queued) || Reads(s, c, InProgress) || Reads(s, c, BackgroundWaiting))
  }

  /** What the item becomes: done if its task completed, blocked if it waits for a human, failed whatever else its row
      says and if there is none. */
  predicate Reports(s: State, c: Id, st: Status) {
    match st
    case Done => Reads(s, c, Completed)
    case Blocked => Reads(s, c, AwaitingInput)
    case Failed => !Reads(s, c, Completed) && !Reads(s, c, AwaitingInput)
    case _ => false
  }

  /** Done before the tick picks: by its status, or by that of the task that has just ended. */
  predicate NowDone(s: State, d: Id) {
    d in s.items && (s.items[d].status == Done || (InFlight(s, d) && Reads(s, d, Completed)))
  }

  predicate NowDead(s: State, d: Id) {
    d in s.items &&
    (s.items[d].status == Failed || s.items[d].status == Blocked || (InFlight(s, d) && !Reads(s, d, Completed)))
  }

  predicate Waits(s: State, i: Id) {
    i in s.items && s.items[i].status == Pending
  }

  predicate HasDeadNow(s: State, i: Id)
    requires i in s.items
  {
    exists d | d in s.items[i].deps :: NowDead(s, d)
  }

  predicate AllDoneNow(s: State, i: Id)
    requires i in s.items
  {
    forall d | d in s.items[i].deps :: NowDone(s, d)
  }

  /** The item picked waits for nothing, and no other such item stands before it by seq and creation time. */
  ghost predicate PicksFirst(s: State, pick: Option<Id>) {
    match pick
    case None => forall i :: Waits(s, i) ==> !AllDoneNow(s, i)
    case Some(p) =>
      && Waits(s, p) && AllDoneNow(s, p)
      && forall i :: Waits(s, i) && AllDoneNow(s, i) ==>
           s.items[p].seqNo < s.items[i].seqNo ||
           (s.items[p].seqNo == s.items[i].seqNo && s.items[p].created <= s.items[i].created)
  }

  /** The status of a row after a tick that does not wait. */
  predicate StatusMoves(s: State, pick: Option<Id>, fate: SpawnFate, i: Id, st: Status)
    requires i in s.items
  {
    if InFlight(s, i) then Reports(s, i, st)
    else if !Waits(s, i) then st == s.items[i].status
    else if HasDeadNow(s, i) then st == Blocked
    else if pick != Some(i) then st == Pending
    else
      match fate
      case NotStarted => st == Pending
      case Started => st == Running
      case SpawnFailed => st == Failed
  }

  predicate RowMoves(s: State, pick: Option<Id>, t: TaskId, fate: SpawnFate, i: Id, row: Item)
    requires i in s.items
  {
    && StatusMoves(s, pick, fate, i, row.status)
    && row.deps == s.items[i].deps && row.seqNo == s.items[i].seqNo && row.created == s.items[i].created
    && row.task == if pick == Some(i) && fate != NotStarted then Some(t) else s.items[i].task
  }

  predicate RunMoves(pick: Option<Id>, fate: SpawnFate, s': State) {
    && s'.run.Some? && s'.run.value.current == (if fate == Started then pick else None)
    && s'.run.value.status ==
       if pick.None? && forall i | i in s'.items :: s'.items[i].status != Pending && s'.items[i].status != Running
       then Finished else Active
  }

  ghost predicate RowsMove(s: State, pick: Option<Id>, t: TaskId, fate: SpawnFate, s': State) {
    && s'.items.Keys == s.items.Keys
    && (forall i :: i in s.items ==> RowMoves(s, pick, t, fate, i, s'.items[i]))
    && s'.tasks == (if pick.None? || fate == NotStarted then s.tasks
                    else s.tasks[t := if fate == Started then Queued else Ended])
    && RunMoves(pick, fate, s')
  }

  /** A whole tick. */
  ghost predicate TickRows(s: State, pick: Option<Id>, t: TaskId, fate: SpawnFate, s': State) {
    if !(s.run.Some? && s.run.value.status == Active) || (exists c :: AtWork(s, c)) then pick == None && s' == s
    else PicksFirst(s, pick) && RowsMove(s, pick, t, fate, s')
  }

  lemma DoneNotDead(s: State, i: Id)
    requires i in s.items && AllDoneNow(s, i)
    ensures !HasDeadNow(s, i)
  {
  }

  // ----- the model's tick is that tick -----

  lemma VerdictReports(s: State, c: Id, st: Status)
    requires InFlight(s, c)
    ensures Reports(s, c, st) <==> st == Verdict(TaskOf(s, c))
  {
  }

  lemma WaitingIsAtWork(s: State)
    ensures Waiting(s) <==> exists c :: AtWork(s, c)
  {
    if Waiting(s) {
      assert AtWork(s, s.run.value.current.value);
    }
  }

  lemma ResolvedRows(s: State)
    requires Picking(s)
    ensures var items := Resolve(s).items;
      && items.Keys == s.items.Keys
      && (forall i :: IsDone(items, i) <==> NowDone(s, i))
      && (forall i :: IsDead(items, i) <==> NowDead(s, i))
      && (forall i :: Waits(s, i) <==> i in items && items[i].status == Pending)
      && (forall i :: i in items ==> ResolvedRow(s, i, items[i]))
    ensures Resolve(s).tasks == s.tasks && Resolve(s).run == Some(Run(Active, None))
  {
    if HasInFlight(s) {
      var c := s.run.value.current.value;
      VerdictReports(s, c, Resolve(s).items[c].status);
    }
  }

  /** Cascade and pick, over rows resolved as `items`. */
  lemma CascadedRows(s: State, items: map<Id, Item>)
    requires items.Keys == s.items.Keys && forall i :: i in items ==> items[i].deps == s.items[i].deps
    requires forall i :: IsDone(items, i) <==> NowDone(s, i)
    requires forall i :: IsDead(items, i) <==> NowDead(s, i)
    requires forall i :: Waits(s, i) <==> i in items && items[i].status == Pending
    ensures forall i :: Eligible(items, i) <==> Waits(s, i) && AllDoneNow(s, i)
    ensures forall i :: Doomed(items, i) <==> Waits(s, i) && HasDeadNow(s, i)
  {
    forall i | i in items ensures HasDeadDep(items, i) <==> HasDeadNow(s, i) {
      if d :| d in items[i].deps && IsDead(items, d) { assert NowDead(s, d); }
      if d :| d in s.items[i].deps && NowDead(s, d) { assert IsDead(items, d); }
    }
  }

  lemma PickIsFirst(s: State, items: map<Id, Item>, pick: Option<Id>)
    requires IsPick(items, pick) && items.Keys == s.items.Keys
    requires forall i :: i in items ==> items[i].seqNo == s.items[i].seqNo && items[i].created == s.items[i].created
    requires forall i :: Eligible(items, i) <==> Waits(s, i) && AllDoneNow(s, i)
    ensures PicksFirst(s, pick)
  {
    if pick.Some? {
      forall i | Waits(s, i) && AllDoneNow(s, i)
        ensures s.items[pick.value].seqNo < s.items[i].seqNo ||
                (s.items[pick.value].seqNo == s.items[i].seqNo && s.items[pick.value].created <= s.items[i].created)
      {
        assert Eligible(items, i) && !Before(items[i], items[pick.value]);
      }
    }
  }

  /** Main result: every tick does to the rows what `TickRows` says. */
  lemma TickByRows(s: State, pick: Option<Id>, t: TaskId, fate: SpawnFate)
    requires ValidPick(s, pick)
    ensures TickRows(s, pick, t, fate, Tick(s, pick, t, fate))
  {
    WaitingIsAtWork(s);
    if Picking(s) {
      var r := Resolve(s);
      ResolvedRows(s);
      CascadedRows(s, r.items);
      PickIsFirst(s, r.items, pick);
      MovedRows(s, r, pick, t, fate);
    }
  }

  lemma DeadDepNotDone(items: map<Id, Item>, i: Id)
    requires Eligible(items, i)
    ensures !Doomed(items, i)
  {
  }

  lemma MovedRows(s: State, r: State, pick: Option<Id>, t: TaskId, fate: SpawnFate)
    requires Picking(s) && r == Resolve(s) && IsPick(r.items, pick)
    requires r.items.Keys == s.items.Keys && r.tasks == s.tasks && r.run == Some(Run(Active, None))
    requires forall i :: i in s.items ==> ResolvedRow(s, i, r.items[i])
    requires forall i :: Eligible(r.items, i) <==> Waits(s, i) && AllDoneNow(s, i)
    requires forall i :: Doomed(r.items, i) <==> Waits(s, i) && HasDeadNow(s, i)
    ensures RowsMove(s, pick, t, fate, Tick(s, pick, t, fate))
  {
    if pick.Some? {
      DeadDepNotDone(r.items, pick.value);
      SpawnedRows(r.(items := Cascade(r.items)), pick.value, t, fate);
    }
    TickedRows(s, r.items, pick, t, fate, Tick(s, pick, t, fate).items);
  }

  lemma TickedRows(s: State, items: map<Id, Item>, pick: Option<Id>, t: TaskId, fate: SpawnFate, end: map<Id, Item>)
    requires items.Keys == s.items.Keys == end.Keys
    requires forall i :: i in s.items ==> ResolvedRow(s, i, items[i])
    requires forall i :: i in s.items ==> end[i] == RowAfter(Cascade(items)[i], pick == Some(i), t, fate)
    requires pick.Some? ==> Waits(s, pick.value) && !Doomed(items, pick.value)
    requires forall i :: Doomed(items, i) <==> Waits(s, i) && HasDeadNow(s, i)
    ensures forall i :: i in s.items ==> RowMoves(s, pick, t, fate, i, end[i])
  {
    forall i | i in s.items ensures RowMoves(s, pick, t, fate, i, end[i]) {
      OneRow(s, items, pick, t, fate, i);
    }
  }

  predicate ResolvedRow(s: State, i: Id, row: Item)
    requires i in s.items
  {
    if InFlight(s, i) then row == s.items[i].(status := row.status) && Reports(s, i, row.status)
    else row == s.items[i]
  }

  lemma OneRow(s: State, items: map<Id, Item>, pick: Option<Id>, t: TaskId, fate: SpawnFate, i: Id)
    requires i in s.items && i in items && ResolvedRow(s, i, items[i])
    requires pick == Some(i) ==> Waits(s, i) && !Doomed(items, i)
    requires Doomed(items, i) <==> Waits(s, i) && HasDeadNow(s, i)
    ensures RowMoves(s, pick, t, fate, i, RowAfter(Cascade(items)[i], pick == Some(i), t, fate))
  {
  }

  /** The row once the cascade is over, `c`, after the pick is spawned. */
  function RowAfter(c: Item, picked: bool, t: TaskId, fate: SpawnFate): Item {
    if !picked || fate == NotStarted then c
    else c.(status := if fate == Started then Running else Failed, task := Some(t))
  }

  lemma SpawnedRows(c: State, p: Id, t: TaskId, fate: SpawnFate)
    requires p in c.items && c.items[p].status == Pending && c.run == Some(Run(Active, None))
    ensures var s' := Spawn(c, p, t, fate);
      && s'.items.Keys == c.items.Keys
      && (forall i :: i in c.items ==> s'.items[i] == RowAfter(c.items[i], i == p, t, fate))
      && s'.tasks == (if fate == NotStarted then c.tasks else c.tasks[t := if fate == Started then Queued else Ended])
      && s'.run == Some(Run(Active, if fate == Started then Some(p) else None))
  {
  }

  /** And nothing else does: the rows after a tick are determined. */
  lemma TickRowsDetermine(s: State, pick: Option<Id>, t: TaskId, fate: SpawnFate, a: State, b: State)
    requires TickRows(s, pick, t, fate, a) && TickRows(s, pick, t, fate, b)
    ensures a.items == b.items && a.run == b.run && a.tasks == b.tasks
  {
    if a != s || b != s { SameRows(s, pick, t, fate, a, b); }
  }

  lemma SameRows(s: State, pick: Option<Id>, t: TaskId, fate: SpawnFate, a: State, b: State)
    requires RowsMove(s, pick, t, fate, a) && RowsMove(s, pick, t, fate, b)
    ensures a.items == b.items && a.run == b.run && a.tasks == b.tasks
  {
    forall i | i in s.items ensures a.items[i] == b.items[i] {
      SameRow(s, pick, t, fate, i, a.items[i], b.items[i]);
    }
  }

  lemma SameRow(s: State, pick: Option<Id>, t: TaskId, fate: SpawnFate, i: Id, a: Item, b: Item)
    requires i in s.items && RowMoves(s, pick, t, fate, i, a) && RowMoves(s, pick, t, fate, i, b)
    ensures a == b
  {
  }
}
