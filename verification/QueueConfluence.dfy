/** Confluence. */
module QueueConfluence {
  import opened Optional
  import opened QueueModel
  import opened QueueSafety
  import opened QueueTick

  // The order in which the queue works does not matter.  Fix the deps and fix what each item's own work would
  // come to; then any two runs from the same state that come to rest leave every item with the same status,
  // however their ticks, reorders, pauses and task changes were interleaved.

  /** The tick, if it settles an item, settles it the way `outcome` says that item ends; and that is what the item's
      task reports. */
  ghost predicate Faithful(s: State, e: Event, outcome: map<Id, Status>)
    requires Possible(s, e)
  {
    e.TickEvent? && Picking(s) ==>
      && (forall c :: InFlight(s, c) ==> c in outcome && Reports(s, c, outcome[c]))
      && (e.pick.Some? && e.fate == SpawnFailed ==> e.pick.value in outcome && outcome[e.pick.value] == Failed)
  }

  ghost predicate FaithfulRun(s: State, events: seq<Event>, outcome: map<Id, Status>)
    requires IsRun(s, events)
    decreases |events|
  {
    events != [] ==>
      && KeepsShape(events[0]) && Faithful(s, events[0], outcome)
      && FaithfulRun(Apply(s, events[0]), events[1..], outcome)
  }

  /** Nothing runs and no tick would change an item. */
  ghost predicate AtRest(s: State) {
    forall i :: i in s.items ==> s.items[i].status != Running && !Eligible(s.items, i) && !Doomed(s.items, i)
  }

  // ----- what one step does to the statuses -----

  ghost predicate SameDeps(items: map<Id, Item>, items': map<Id, Item>) {
    items.Keys == items'.Keys && forall i :: i in items ==> items'[i].deps == items[i].deps
  }

  /** `d` is settled as done (dead) in `items'` and had at least been started in `items`. */
  predicate SettledDone(items: map<Id, Item>, items': map<Id, Item>, d: Id) {
    IsDone(items', d) && d in items && items[d].status != Pending
  }

  predicate SettledDead(items: map<Id, Item>, items': map<Id, Item>, d: Id) {
    IsDead(items', d) && d in items && items[d].status != Pending
  }

  /** How one item may move in one step. */
  predicate Moves(items: map<Id, Item>, items': map<Id, Item>, outcome: map<Id, Status>, i: Id)
    requires i in items && i in items'
  {
    var (a, b) := (items[i].status, items'[i].status);
    || a == b
    || (a == Running && i in outcome && b == outcome[i])
    || (a == Pending && b == Blocked && exists d | d in items[i].deps :: SettledDead(items, items', d))
    || (a == Pending && (b == Running || (b == Failed && i in outcome && outcome[i] == Failed)) &&
        forall d | d in items[i].deps :: SettledDone(items, items', d))
  }

  ghost predicate Progressed(items: map<Id, Item>, items': map<Id, Item>, outcome: map<Id, Status>) {
    SameDeps(items, items') && forall i :: i in items ==> Moves(items, items', outcome, i)
  }

  predicate OutcomesAreFinal(outcome: map<Id, Status>) {
    forall i | i in outcome :: IsTerminal(outcome[i])
  }

  lemma ResolveMoves(s: State, outcome: map<Id, Status>)
    requires s.run.Some? && OutcomesAreFinal(outcome)
    requires forall c :: InFlight(s, c) ==> c in outcome && Reports(s, c, outcome[c])
    ensures SameDeps(s.items, Resolve(s).items)
    ensures forall i :: i in s.items ==>
              Resolve(s).items[i].status == s.items[i].status ||
              (s.items[i].status == Running && i in outcome && Resolve(s).items[i].status == outcome[i])
  {
    if HasInFlight(s) {
      var c := s.run.value.current.value;
      VerdictReports(s, c, outcome[c]);
    }
  }

  lemma TickMoves(s: State, pick: Option<Id>, t: TaskId, fate: SpawnFate, outcome: map<Id, Status>)
    requires Possible(s, TickEvent(pick, t, fate)) && OutcomesAreFinal(outcome)
    requires Faithful(s, TickEvent(pick, t, fate), outcome)
    ensures Progressed(s.items, Tick(s, pick, t, fate).items, outcome)
  {
    if Picking(s) {
      ResolveMoves(s, outcome);
      var items := Resolve(s).items;
      var s' := Tick(s, pick, t, fate);
      PickedTick(s, pick, t, fate);
      CascadeThenSpawn(s.items, items, s'.items, pick, outcome);
    }
  }

  /** What a tick does once the in-flight item is out of the way: cascade, and start the pick. */
  lemma PickedTick(s: State, pick: Option<Id>, t: TaskId, fate: SpawnFate)
    requires Picking(s) && ValidPick(s, pick)
    ensures var (items, end) := (Resolve(s).items, Tick(s, pick, t, fate).items);
      && SameDeps(items, end) && (pick.Some? ==> Eligible(items, pick.value))
      && (forall i :: i in items && pick != Some(i) ==> end[i].status == Cascade(items)[i].status)
      && (pick.Some? ==>
            || end[pick.value].status in {Pending, Running}
            || (end[pick.value].status == Failed && fate == SpawnFailed))
  {
    if pick.Some? { EligibleSurvivesCascade(Resolve(s).items, pick.value); }
  }

  /** The part of a tick after the in-flight item (`items` to `resolved`): cascade, then start the pick. */
  lemma CascadeThenSpawn(items: map<Id, Item>, resolved: map<Id, Item>, end: map<Id, Item>, pick: Option<Id>,
                         outcome: map<Id, Status>)
    requires SameDeps(items, resolved) && SameDeps(resolved, end)
    requires forall i :: i in items ==>
               resolved[i].status == items[i].status ||
               (items[i].status == Running && i in outcome && resolved[i].status == outcome[i])
    requires OutcomesAreFinal(outcome)
    requires forall i :: i in resolved && pick != Some(i) ==> end[i].status == Cascade(resolved)[i].status
    requires pick.Some? ==> Eligible(resolved, pick.value)
    requires pick.Some? ==>
               || end[pick.value].status == Pending
               || end[pick.value].status == Running
               || (end[pick.value].status == Failed && pick.value in outcome && outcome[pick.value] == Failed)
    ensures Progressed(items, end, outcome)
  {
    AfterCascade(resolved, end, pick);
    forall i | i in items ensures Moves(items, end, outcome, i) {
      if pick == Some(i) {
        PickMoves(items, resolved, end, outcome, i);
      } else if Doomed(resolved, i) {
        DoomedMoves(items, resolved, end, outcome, i);
      } else {
        ResolvedMoves(items, resolved, end, outcome, i);
      }
    }
  }

  /** What is settled stays; of the rest, the doomed are blocked. */
  lemma AfterCascade(items: map<Id, Item>, end: map<Id, Item>, pick: Option<Id>)
    requires items.Keys == end.Keys && (pick.Some? ==> Eligible(items, pick.value))
    requires forall i :: i in items && pick != Some(i) ==> end[i].status == Cascade(items)[i].status
    ensures forall d :: IsDone(items, d) || IsDead(items, d) ==> end[d].status == items[d].status
    ensures forall i :: i in items && pick != Some(i) ==>
              end[i].status == if Doomed(items, i) then Blocked else items[i].status
  {
  }

  lemma ResolvedMoves(items: map<Id, Item>, resolved: map<Id, Item>, end: map<Id, Item>, outcome: map<Id, Status>,
                      i: Id)
    requires i in items && i in resolved && i in end && end[i].status == resolved[i].status
    requires resolved[i].status == items[i].status ||
             (items[i].status == Running && i in outcome && resolved[i].status == outcome[i])
    ensures Moves(items, end, outcome, i)
  {
  }

  lemma PickMoves(items: map<Id, Item>, resolved: map<Id, Item>, end: map<Id, Item>, outcome: map<Id, Status>, i: Id)
    requires SameDeps(items, resolved) && SameDeps(resolved, end) && i in items && Eligible(resolved, i)
    requires items[i].status == Pending
    requires forall d :: d in items && items[d].status == Pending ==> resolved[d].status == Pending
    requires forall d :: IsDone(resolved, d) ==> end[d].status == Done
    requires end[i].status == Pending || end[i].status == Running ||
             (end[i].status == Failed && i in outcome && outcome[i] == Failed)
    ensures Moves(items, end, outcome, i)
  {
    forall d | d in items[i].deps ensures SettledDone(items, end, d) {
      assert IsDone(resolved, d);
    }
  }

  lemma DoomedMoves(items: map<Id, Item>, resolved: map<Id, Item>, end: map<Id, Item>, outcome: map<Id, Status>, i: Id)
    requires SameDeps(items, resolved) && SameDeps(resolved, end) && i in items && Doomed(resolved, i)
    requires forall i :: i in items && items[i].status != Running ==> resolved[i].status == items[i].status
    requires items[i].status == Pending && end[i].status == Blocked
    requires forall d :: IsDead(resolved, d) ==> end[d].status == resolved[d].status && items[d].status != Pending
    ensures Moves(items, end, outcome, i)
  {
    var d :| d in resolved[i].deps && IsDead(resolved, d);
    assert SettledDead(items, end, d);
  }

  lemma StepMoves(s: State, e: Event, outcome: map<Id, Status>)
    requires Inv(s) && Possible(s, e) && KeepsShape(e) && Faithful(s, e, outcome) && OutcomesAreFinal(outcome)
    ensures Progressed(s.items, Apply(s, e).items, outcome)
  {
    match e
    case TickEvent(pick, t, fate) => TickMoves(s, pick, t, fate, outcome);
    case ReorderEvent(order) => RenumberShape(s.items, order);
    case _ =>
  }

  // ----- every run has outcomes -----

  /** What an item that is settled would come to no longer matters. */
  lemma {:induction false} FaithfulElsewhere(s: State, events: seq<Event>, outcome: map<Id, Status>, c: Id, v: Status)
    requires Inv(s) && IsRun(s, events) && OutcomesAreFinal(outcome) && FaithfulRun(s, events, outcome)
    requires c in s.items && IsTerminal(s.items[c].status)
    ensures FaithfulRun(s, events, outcome[c := v])
    decreases |events|
  {
    if events != [] {
      var e := events[0];
      StepKeepsInv(s, e);
      FaithfulStep(s, e, outcome, c, v);
      FaithfulElsewhere(Apply(s, e), events[1..], outcome, c, v);
    }
  }

  lemma FaithfulStep(s: State, e: Event, outcome: map<Id, Status>, c: Id, v: Status)
    requires Inv(s) && Possible(s, e) && KeepsShape(e) && OutcomesAreFinal(outcome) && Faithful(s, e, outcome)
    requires c in s.items && IsTerminal(s.items[c].status)
    ensures Faithful(s, e, outcome[c := v]) && c in Apply(s, e).items && IsTerminal(Apply(s, e).items[c].status)
  {
    StaysSettled(s, e, outcome, c);
    if e.TickEvent? && e.pick.Some? { PickWaits(s, e.pick.value); }
  }

  lemma StaysSettled(s: State, e: Event, outcome: map<Id, Status>, c: Id)
    requires Inv(s) && Possible(s, e) && KeepsShape(e) && OutcomesAreFinal(outcome) && Faithful(s, e, outcome)
    requires c in s.items && IsTerminal(s.items[c].status)
    ensures c in Apply(s, e).items && IsTerminal(Apply(s, e).items[c].status)
  {
    StepMoves(s, e, outcome);
    assert Moves(s.items, Apply(s, e).items, outcome, c);
  }

  lemma PickWaits(s: State, p: Id)
    requires ValidPick(s, Some(p))
    ensures Picking(s) && p in s.items && s.items[p].status == Pending
  {
  }

  /** Main result: the tasks of any run report some outcome of each item, the same throughout, that the run is faithful
      to. */
  lemma {:induction false} RunHasOutcome(s: State, events: seq<Event>) returns (outcome: map<Id, Status>)
    requires Inv(s) && IsRun(s, events) && forall k :: 0 <= k < |events| ==> KeepsShape(events[k])
    ensures OutcomesAreFinal(outcome) && FaithfulRun(s, events, outcome)
    decreases |events|
  {
    outcome := map[];
    if events != [] {
      var e, rest := events[0], events[1..];
      var s' := Apply(s, e);
      StepKeepsInv(s, e);
      outcome := RunHasOutcome(s', rest);
      if e.TickEvent? && Picking(s) {
        TickSettles(s, e.pick, e.newTask, e.fate);
        if HasInFlight(s) {
          outcome := OneMoreOutcome(s', rest, outcome, s.run.value.current.value);
        }
        if e.pick.Some? && e.fate == SpawnFailed {
          outcome := OneMoreOutcome(s', rest, outcome, e.pick.value);
        }
      }
    }
  }

  /** The in-flight item ends as its task reports, a failed spawn as failed. */
  lemma TickSettles(s: State, pick: Option<Id>, t: TaskId, fate: SpawnFate)
    requires ValidPick(s, pick) && Picking(s)
    ensures var items := Tick(s, pick, t, fate).items;
      && (forall c :: InFlight(s, c) ==>
            c in items && IsTerminal(items[c].status) && Reports(s, c, items[c].status) && pick != Some(c))
      && (pick.Some? && fate == SpawnFailed ==> pick.value in items && items[pick.value].status == Failed)
  {
    TickByRows(s, pick, t, fate);
    WaitingIsAtWork(s);
    if pick.Some? { PickWaits(s, pick.value); }
    forall c | InFlight(s, c) ensures c in Tick(s, pick, t, fate).items {
      assert RowMoves(s, pick, t, fate, c, Tick(s, pick, t, fate).items[c]);
    }
    if pick.Some? {
      assert RowMoves(s, pick, t, fate, pick.value, Tick(s, pick, t, fate).items[pick.value]);
      assert !HasDeadNow(s, pick.value) by { DoneNotDead(s, pick.value); }
    }
  }

  lemma OneMoreOutcome(s: State, events: seq<Event>, outcome: map<Id, Status>, c: Id) returns (more: map<Id, Status>)
    requires Inv(s) && IsRun(s, events) && OutcomesAreFinal(outcome) && FaithfulRun(s, events, outcome)
    requires c in s.items && IsTerminal(s.items[c].status)
    ensures more == outcome[c := s.items[c].status] && OutcomesAreFinal(more) && FaithfulRun(s, events, more)
  {
    more := outcome[c := s.items[c].status];
    FaithfulElsewhere(s, events, outcome, c, s.items[c].status);
  }

  // ----- one run against the resting state of another -----

  /** Every status already settled in `items` is the one `rest` has. */
  ghost predicate Agrees(items: map<Id, Item>, rest: map<Id, Item>) {
    SameDeps(items, rest) &&
    forall i :: i in items && IsTerminal(items[i].status) ==> rest[i].status == items[i].status
  }

  /** Items that `start` had not settled end by their own outcome after their deps, or blocked by one of them. */
  ghost predicate Justified(start: map<Id, Item>, items: map<Id, Item>, outcome: map<Id, Status>) {
    SameDeps(start, items) &&
    forall i :: i in items && !IsTerminal(start[i].status) && IsTerminal(items[i].status) ==>
      || (DepsDone(items, i) && i in outcome && items[i].status == outcome[i])
      || (HasDeadDep(items, i) && items[i].status == Blocked)
  }

  ghost predicate KeepsSettled(start: map<Id, Item>, items: map<Id, Item>) {
    SameDeps(start, items) &&
    forall i :: i in items && IsTerminal(start[i].status) ==> items[i].status == start[i].status
  }

  lemma DepFactsPersist(items: map<Id, Item>, items': map<Id, Item>, i: Id)
    requires KeepsSettled(items, items') && i in items
    ensures DepsDone(items, i) ==> DepsDone(items', i)
    ensures HasDeadDep(items, i) ==> HasDeadDep(items', i)
  {
    if HasDeadDep(items, i) {
      var d :| d in items[i].deps && IsDead(items, d);
      assert IsDead(items', d);
    }
  }

  lemma JustifiedStep(start: map<Id, Item>, s: State, items': map<Id, Item>, outcome: map<Id, Status>)
    requires Inv(s) && OutcomesAreFinal(outcome)
    requires Justified(start, s.items, outcome) && KeepsSettled(start, s.items)
    requires Progressed(s.items, items', outcome)
    ensures Justified(start, items', outcome) && KeepsSettled(start, items')
  {
    assert KeepsSettled(s.items, items');
    forall i | i in items' && !IsTerminal(start[i].status) && IsTerminal(items'[i].status)
      ensures (DepsDone(items', i) && i in outcome && items'[i].status == outcome[i]) ||
              (HasDeadDep(items', i) && items'[i].status == Blocked)
    {
      DepFactsPersist(s.items, items', i);
      if IsTerminal(s.items[i].status) {
        assert items'[i].status == s.items[i].status;
      } else {
        if s.items[i].status == Running { assert DepsDone(s.items, i); }
        NewlySettled(s.items, items', outcome, i);
      }
    }
  }

  /** An item a step settles ends by its own outcome after its deps, or blocked by one of them. */
  lemma NewlySettled(items: map<Id, Item>, items': map<Id, Item>, outcome: map<Id, Status>, i: Id)
    requires SameDeps(items, items') && i in items && Moves(items, items', outcome, i)
    requires !IsTerminal(items[i].status) && IsTerminal(items'[i].status)
    requires items[i].status == Running ==> DepsDone(items', i)
    ensures (DepsDone(items', i) && i in outcome && items'[i].status == outcome[i]) ||
            (HasDeadDep(items', i) && items'[i].status == Blocked)
  {
    if items[i].status == Pending && items'[i].status == Failed {
      assert forall d | d in items[i].deps :: SettledDone(items, items', d);
    }
  }

  lemma {:induction false} JustifiedRun(start: map<Id, Item>, s: State, events: seq<Event>, outcome: map<Id, Status>)
    requires Inv(s) && IsRun(s, events) && OutcomesAreFinal(outcome) && FaithfulRun(s, events, outcome)
    requires Justified(start, s.items, outcome) && KeepsSettled(start, s.items)
    ensures Justified(start, After(s, events).items, outcome) && KeepsSettled(start, After(s, events).items)
    decreases |events|
  {
    if events != [] {
      var s' := Apply(s, events[0]);
      StepMoves(s, events[0], outcome);
      StepKeepsInv(s, events[0]);
      JustifiedStep(start, s, s'.items, outcome);
      JustifiedRun(start, s', events[1..], outcome);
    }
  }

  /** At rest, an item whose deps are all done has ended by its own outcome. */
  lemma OwnOutcomeAtRest(rest: State, start: map<Id, Item>, outcome: map<Id, Status>, i: Id)
    requires AtRest(rest) && Justified(start, rest.items, outcome)
    requires i in rest.items && !IsTerminal(start[i].status) && DepsDone(rest.items, i)
    ensures i in outcome && rest.items[i].status == outcome[i]
  {
    assert !Eligible(rest.items, i);
  }

  /** At rest, an item with a dead dep is blocked. */
  lemma BlockedAtRest(rest: State, start: map<Id, Item>, outcome: map<Id, Status>, i: Id)
    requires AtRest(rest) && Justified(start, rest.items, outcome)
    requires i in rest.items && !IsTerminal(start[i].status) && HasDeadDep(rest.items, i)
    ensures rest.items[i].status == Blocked
  {
    assert !Doomed(rest.items, i);
  }

  lemma RunningAgrees(s: State, items': map<Id, Item>, rest: State, start: map<Id, Item>, outcome: map<Id, Status>,
                      i: Id)
    requires Inv(s) && KeepsSettled(start, s.items) && Agrees(s.items, rest.items)
    requires Progressed(s.items, items', outcome)
    requires AtRest(rest) && Justified(start, rest.items, outcome)
    requires i in s.items && s.items[i].status != Pending && IsTerminal(items'[i].status)
    ensures rest.items[i].status == items'[i].status
  {
    assert Moves(s.items, items', outcome, i);
    if s.items[i].status == Running {
      assert s.items[i].task.Some?;
      assert DepsDone(s.items, i);
      forall d | d in rest.items[i].deps ensures IsDone(rest.items, d) {
        assert IsDone(s.items, d);
      }
      OwnOutcomeAtRest(rest, start, outcome, i);
    }
  }

  lemma PendingAgrees(s: State, items': map<Id, Item>, rest: State, start: map<Id, Item>, outcome: map<Id, Status>,
                      i: Id)
    requires Inv(s) && KeepsSettled(start, s.items) && Agrees(s.items, rest.items)
    requires Progressed(s.items, items', outcome)
    requires AtRest(rest) && Justified(start, rest.items, outcome)
    requires i in s.items && s.items[i].status == Pending && IsTerminal(items'[i].status)
    ensures rest.items[i].status == items'[i].status
  {
    assert Moves(s.items, items', outcome, i);
    assert !IsTerminal(start[i].status);
    if items'[i].status == Blocked {
      var d :| d in s.items[i].deps && SettledDead(s.items, items', d);
      RunningAgrees(s, items', rest, start, outcome, d);
      DeadDepBlocks(rest, start, outcome, i, d);
    } else {
      forall d | d in s.items[i].deps ensures IsDone(rest.items, d) {
        assert SettledDone(s.items, items', d);
        RunningAgrees(s, items', rest, start, outcome, d);
      }
      assert DepsDone(rest.items, i);
      OwnOutcomeAtRest(rest, start, outcome, i);
    }
  }

  lemma DeadDepBlocks(rest: State, start: map<Id, Item>, outcome: map<Id, Status>, i: Id, d: Id)
    requires AtRest(rest) && Justified(start, rest.items, outcome)
    requires i in rest.items && !IsTerminal(start[i].status) && d in rest.items[i].deps && IsDead(rest.items, d)
    ensures rest.items[i].status == Blocked
  {
    BlockedAtRest(rest, start, outcome, i);
  }

  lemma AgreesStep(s: State, items': map<Id, Item>, rest: State, start: map<Id, Item>, outcome: map<Id, Status>)
    requires Inv(s) && OutcomesAreFinal(outcome)
    requires KeepsSettled(start, s.items) && Agrees(s.items, rest.items) && Progressed(s.items, items', outcome)
    requires AtRest(rest) && Justified(start, rest.items, outcome)
    ensures Agrees(items', rest.items) && KeepsSettled(start, items')
  {
    forall i | i in items' && IsTerminal(items'[i].status) ensures rest.items[i].status == items'[i].status {
      if s.items[i].status == Pending {
        PendingAgrees(s, items', rest, start, outcome, i);
      } else {
        RunningAgrees(s, items', rest, start, outcome, i);
      }
    }
    SettledStays(start, s.items, items', outcome);
  }

  lemma SettledStays(start: map<Id, Item>, items: map<Id, Item>, items': map<Id, Item>, outcome: map<Id, Status>)
    requires KeepsSettled(start, items) && Progressed(items, items', outcome)
    ensures KeepsSettled(start, items')
  {
    forall i | i in items' && IsTerminal(start[i].status) ensures items'[i].status == start[i].status {
      assert Moves(items, items', outcome, i);
    }
  }

  lemma {:induction false} AgreesRun(s: State, events: seq<Event>, rest: State, start: map<Id, Item>,
                                     outcome: map<Id, Status>)
    requires Inv(s) && IsRun(s, events) && OutcomesAreFinal(outcome) && FaithfulRun(s, events, outcome)
    requires KeepsSettled(start, s.items) && Agrees(s.items, rest.items)
    requires AtRest(rest) && Justified(start, rest.items, outcome)
    ensures Agrees(After(s, events).items, rest.items)
    decreases |events|
  {
    if events != [] {
      var s' := Apply(s, events[0]);
      StepMoves(s, events[0], outcome);
      StepKeepsInv(s, events[0]);
      AgreesStep(s, s'.items, rest, start, outcome);
      AgreesRun(s', events[1..], rest, start, outcome);
    }
  }

  // ----- main results -----

  lemma OneAgreesWithOther(s: State, run1: seq<Event>, run2: seq<Event>, outcome: map<Id, Status>)
    requires Inv(s) && OutcomesAreFinal(outcome)
    requires IsRun(s, run1) && FaithfulRun(s, run1, outcome)
    requires IsRun(s, run2) && FaithfulRun(s, run2, outcome) && AtRest(After(s, run2))
    ensures Agrees(After(s, run1).items, After(s, run2).items)
  {
    JustifiedRun(s.items, s, run2, outcome);
    AgreesRun(s, run1, After(s, run2), s.items, outcome);
  }

  /** Two runs from one state with the same outcomes that both come to rest agree on every status. */
  lemma Confluence(s: State, run1: seq<Event>, run2: seq<Event>, outcome: map<Id, Status>)
    requires Reachable(s) && OutcomesAreFinal(outcome)
    requires IsRun(s, run1) && FaithfulRun(s, run1, outcome) && AtRest(After(s, run1))
    requires IsRun(s, run2) && FaithfulRun(s, run2, outcome) && AtRest(After(s, run2))
    ensures After(s, run1).items.Keys == s.items.Keys == After(s, run2).items.Keys
    ensures forall i :: i in s.items ==> After(s, run1).items[i].status == After(s, run2).items[i].status
  {
    ReachableInv(s);
    JustifiedRun(s.items, s, run1, outcome);
    OneAgreesWithOther(s, run1, run2, outcome);
    OneAgreesWithOther(s, run2, run1, outcome);
    SameStatuses(After(s, run1), After(s, run2));
  }

  lemma SameStatuses(a: State, b: State)
    requires Agrees(a.items, b.items) && Agrees(b.items, a.items) && AtRest(a) && AtRest(b)
    ensures a.items.Keys == b.items.Keys
    ensures forall i :: i in a.items ==> a.items[i].status == b.items[i].status
  {
    forall i | i in a.items ensures a.items[i].status == b.items[i].status {
      assert a.items[i].status != Running && b.items[i].status != Running;
    }
  }

  /**
    What the statuses are: when the run row reads finished, each item that was still open at the start is
    blocked if one of its deps failed or is blocked, and otherwise ended by its own outcome.
  */
  lemma FinalStatuses(s: State, events: seq<Event>, outcome: map<Id, Status>, i: Id)
    requires Reachable(s) && OutcomesAreFinal(outcome)
    requires IsRun(s, events) && FaithfulRun(s, events, outcome)
    requires !Unfinished(After(s, events).items)
    requires i in s.items && !IsTerminal(s.items[i].status)
    ensures var end := After(s, events).items;
      && i in end && end[i].deps == s.items[i].deps
      && (HasDeadDep(end, i) ==> end[i].status == Blocked)
      && (!HasDeadDep(end, i) ==> i in outcome && end[i].status == outcome[i])
  {
    ReachableInv(s);
    JustifiedRun(s.items, s, events, outcome);
    FinishedJustified(s.items, After(s, events).items, outcome, i);
  }

  lemma FinishedJustified(start: map<Id, Item>, end: map<Id, Item>, outcome: map<Id, Status>, i: Id)
    requires Justified(start, end, outcome) && !Unfinished(end) && i in start && !IsTerminal(start[i].status)
    ensures HasDeadDep(end, i) ==> end[i].status == Blocked
    ensures !HasDeadDep(end, i) ==> i in outcome && end[i].status == outcome[i]
  {
    assert end[i].status != Pending && end[i].status != Running;
    if HasDeadDep(end, i) {
      var d :| d in end[i].deps && IsDead(end, d);
      assert !IsDone(end, d);
    }
  }

  /** A run row that the scheduler marks finished leaves nothing open, so the state is at rest. */
  lemma FinishedMeansAtRest(s: State, pick: Option<Id>, t: TaskId, fate: SpawnFate)
    requires Inv(s) && Ticking(s) && ValidPick(s, pick)
    requires Tick(s, pick, t, fate).run.value.status == Finished
    ensures !Unfinished(Tick(s, pick, t, fate).items) && AtRest(Tick(s, pick, t, fate))
  {
    var end := Tick(s, pick, t, fate);
    forall i | i in end.items ensures end.items[i].status != Pending && end.items[i].status != Running {
    }
  }
}
