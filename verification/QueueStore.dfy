/** The queue as the program runs it. */
module QueueStore {
  import opened Optional
  import opened Sequences
  import opened QueueModel
  import opened QueueTick

  // The queue as the program runs it: tables updated row by row.  Each method is proved to take the abstract
  // state to exactly the state `QueueModel` gives, so the results about runs hold of it.

  /** `rows` lists every item once, by seq and then created_at. */
  ghost predicate IsListing(items: map<Id, Item>, rows: seq<Id>) {
    && (forall k :: 0 <= k < |rows| ==> rows[k] in items)
    && (forall i :: i in items ==> i in rows)
    && (forall j, k :: 0 <= j < k < |rows| ==> rows[j] != rows[k] && !Before(items[rows[k]], items[rows[j]]))
  }

  /** Blocks the doomed rows among those listed so far. */
  ghost predicate CascadedUpTo(before: map<Id, Item>, now: map<Id, Item>, rows: seq<Id>, n: nat)
    requires n <= |rows|
  {
    && now.Keys == before.Keys
    && forall i :: i in before ==>
         now[i] == if i in rows[..n] && Doomed(before, i) then before[i].(status := Blocked) else before[i]
  }

  /** The pick so far is the first eligible row among those listed so far. */
  ghost predicate FirstEligible(items: map<Id, Item>, rows: seq<Id>, n: nat, pick: Option<Id>)
    requires n <= |rows|
  {
    match pick
    case None => forall k :: 0 <= k < n ==> !Eligible(items, rows[k])
    case Some(p) =>
      && Eligible(items, p)
      && exists m :: 0 <= m < n && rows[m] == p && forall k :: 0 <= k < m ==> !Eligible(items, rows[k])
  }

  lemma AllRowsCascaded(before: map<Id, Item>, now: map<Id, Item>, rows: seq<Id>)
    requires IsListing(before, rows) && CascadedUpTo(before, now, rows, |rows|)
    ensures now == Cascade(before)
  {
    assert rows[..|rows|] == rows;
  }

  lemma FirstEligibleIsPick(items: map<Id, Item>, rows: seq<Id>, pick: Option<Id>)
    requires IsListing(items, rows) && FirstEligible(items, rows, |rows|, pick)
    ensures IsPick(items, pick)
  {
    forall i | Eligible(items, i) ensures pick.Some? && !Before(items[i], items[pick.value]) {
      assert i in rows;
      var n :| 0 <= n < |rows| && rows[n] == i;
    }
  }

  /** Two listings differ only in the order of rows that tie on both columns. */
  lemma ReorderedListing(items: map<Id, Item>, order: seq<Id>, rows: seq<Id>)
    requires forall j, k :: 0 <= j < k < |order| ==> order[j] != order[k]
    requires forall i :: i in items <==> i in order
    requires IsListing(Renumber(items, order).1, rows)
    ensures rows == order
  {
    RenumberPositions(items, order);
    var r := Renumber(items, order).1;
    assert forall k :: 0 <= k < |order| ==> order[k] in items;
    SortedIsOrder(r, order, rows);
  }

  /** The places of the order list that hold known ids. */
  function Known(items: map<Id, Item>, order: seq<Id>): set<nat> {
    set k | 0 <= k < |order| && order[k] in items
  }

  lemma {:induction false} RenumberCounts(items: map<Id, Item>, order: seq<Id>)
    ensures Renumber(items, order).0 == |Known(items, order)| && Renumber(items, order).1.Keys == items.Keys
  {
    if order != [] {
      var n := |order| - 1;
      RenumberCounts(items, order[..n]);
      assert Known(items, order) == Known(items, order[..n]) + if order[n] in items then {n} else {};
    }
  }

  /** A known id's position is the number of known ids up to its last place in the list, repetitions included; the
      others keep theirs. */
  lemma {:induction false} RenumberPosition(items: map<Id, Item>, order: seq<Id>, i: Id)
    requires i in items
    ensures i in Renumber(items, order).1
    ensures i !in order ==> Renumber(items, order).1[i] == items[i]
    ensures forall k :: 0 <= k < |order| && order[k] == i && i !in order[k + 1..] ==>
              Renumber(items, order).1[i].seqNo == |Known(items, order[..k + 1])|
  {
    if order != [] {
      var n := |order| - 1;
      var front := order[..n];
      RenumberPosition(items, front, i);
      RenumberCounts(items, order);
      RenumberCounts(items, front);
      forall k | 0 <= k < |order| && order[k] == i && i !in order[k + 1..]
        ensures Renumber(items, order).1[i].seqNo == |Known(items, order[..k + 1])|
      {
        if k < n {
          assert order[n] == order[k + 1..][n - k - 1];
          assert front[k + 1..] == order[k + 1..][..n - k - 1];
          assert front[..k + 1] == order[..k + 1] && front[k] == i;
        } else {
          assert order[..k + 1] == order;
        }
      }
      if i !in order {
        assert order[n] != i;
        assert forall x :: x in front ==> x in order;
      }
    }
  }

  lemma {:induction false} RenumberPositions(items: map<Id, Item>, order: seq<Id>)
    requires forall j, k :: 0 <= j < k < |order| ==> order[j] != order[k]
    requires forall k :: 0 <= k < |order| ==> order[k] in items
    ensures Renumber(items, order).0 == |order|
    ensures Renumber(items, order).1.Keys == items.Keys
    ensures forall k :: 0 <= k < |order| ==> Renumber(items, order).1[order[k]].seqNo == k + 1
  {
    if order != [] {
      RenumberPositions(items, order[..|order| - 1]);
    }
  }

  lemma SortedIsOrder(items: map<Id, Item>, order: seq<Id>, rows: seq<Id>)
    requires forall k :: 0 <= k < |order| ==> order[k] in items && items[order[k]].seqNo == k + 1
    requires forall i :: i in items ==> i in order
    requires IsListing(items, rows)
    ensures rows == order
  {
    for m := 0 to |rows|
      invariant m <= |order| && forall k :: 0 <= k < m ==> rows[k] == order[k]
    {
      assert rows[m] in items;
      var a :| 0 <= a < |order| && order[a] == rows[m];
      assert a >= m;
      assert order[m] in items;
      var b :| 0 <= b < |rows| && rows[b] == order[m];
      assert b >= m;
    }
    for m := 0 to |order|
      invariant m <= |rows|
    {
      assert order[m] in items;
      var b :| 0 <= b < |rows| && rows[b] == order[m];
    }
  }

  /** The rows listed so far: distinct, in order, none of them among `rest`. */
  ghost predicate PartlyListed(items: map<Id, Item>, rows: seq<Id>, rest: set<Id>) {
    && (forall k :: 0 <= k < |rows| ==> rows[k] in items && rows[k] !in rest)
    && (forall i :: i in items ==> i in rest || i in rows)
    && (forall j, k :: 0 <= j < k < |rows| ==> rows[j] != rows[k] && !Before(items[rows[k]], items[rows[j]]))
  }

  lemma InsertRow(items: map<Id, Item>, rows: seq<Id>, rest: set<Id>, i: Id, at: nat)
    requires PartlyListed(items, rows, rest) && i in rest && i in items && at <= |rows|
    requires forall k :: 0 <= k < at ==> !Before(items[i], items[rows[k]])
    requires at < |rows| ==> Before(items[i], items[rows[at]])
    ensures PartlyListed(items, rows[..at] + [i] + rows[at..], rest - {i})
  {
    var r := rows[..at] + [i] + rows[at..];
    Inserted(rows, at, i);
    forall j, k | 0 <= j < k < |r| ensures r[j] != r[k] && !Before(items[r[k]], items[r[j]]) {
      InsertedOrder(items, rows, rest, i, at, j, k);
    }
  }

  lemma InsertedOrder(items: map<Id, Item>, rows: seq<Id>, rest: set<Id>, i: Id, at: nat, j: nat, k: nat)
    requires PartlyListed(items, rows, rest) && i in rest && i in items && at <= |rows| && j < k <= |rows|
    requires forall k :: 0 <= k < at ==> !Before(items[i], items[rows[k]])
    requires at < |rows| ==> Before(items[i], items[rows[at]])
    ensures var (a, b) := (if j < at then rows[j] else if j == at then i else rows[j - 1],
                           if k < at then rows[k] else if k == at then i else rows[k - 1]);
      a in items && b in items && a != b && !Before(items[b], items[a])
  {
    if at < k - 1 && j == at {
      assert !Before(items[rows[k - 1]], items[rows[at]]);
    }
  }

  /** Looking at row `n` extends the cascade and the search for the pick by one row. */
  lemma NextRow(before: map<Id, Item>, now: map<Id, Item>, now': map<Id, Item>, rows: seq<Id>, n: nat,
                pick: Option<Id>, pick': Option<Id>)
    requires IsListing(before, rows) && n < |rows|
    requires CascadedUpTo(before, now, rows, n) && FirstEligible(before, rows, n, pick)
    requires now' == if Doomed(before, rows[n]) then now[rows[n] := now[rows[n]].(status := Blocked)] else now
    requires pick' == if pick.None? && Eligible(before, rows[n]) then Some(rows[n]) else pick
    ensures CascadedUpTo(before, now', rows, n + 1) && FirstEligible(before, rows, n + 1, pick')
  {
    NextCascaded(before, now, now', rows, n);
    NextEligibleRow(before, rows, n, pick);
  }

  lemma NextCascaded(before: map<Id, Item>, now: map<Id, Item>, now': map<Id, Item>, rows: seq<Id>, n: nat)
    requires IsListing(before, rows) && n < |rows| && CascadedUpTo(before, now, rows, n)
    requires now' == if Doomed(before, rows[n]) then now[rows[n] := now[rows[n]].(status := Blocked)] else now
    ensures CascadedUpTo(before, now', rows, n + 1)
  {
    forall i | i in before
      ensures now'[i] == if i in rows[..n + 1] && Doomed(before, i) then before[i].(status := Blocked) else before[i]
    {
      UpToNext(rows, n, i);
    }
  }

  lemma UpToNext(rows: seq<Id>, n: nat, i: Id)
    requires n < |rows| && forall j, k :: 0 <= j < k < |rows| ==> rows[j] != rows[k]
    ensures i in rows[..n + 1] <==> i in rows[..n] || i == rows[n]
    ensures i in rows[..n] ==> i != rows[n]
  {
    assert rows[..n + 1] == rows[..n] + [rows[n]];
  }

  lemma NextEligibleRow(before: map<Id, Item>, rows: seq<Id>, n: nat, pick: Option<Id>)
    requires n < |rows| && FirstEligible(before, rows, n, pick)
    ensures FirstEligible(before, rows, n + 1, if pick.None? && Eligible(before, rows[n]) then Some(rows[n]) else pick)
  {
  }

  class Store {
    var items: map<Id, Item>
    var run: Option<Run>
    var tasks: map<TaskId, TaskStatus>
    var log: seq<LogLine>

    ghost function State(): State
      reads this
    {
      QueueModel.State(items, run, tasks, log)
    }

    constructor ()
      ensures State() == EMPTY
    {
      items, run, tasks, log := map[], None, map[], [];
    }

    /** SELECT * FROM queue_items ORDER BY seq, created_at. */
    method SelectOrdered() returns (rows: seq<Id>)
      ensures IsListing(items, rows)
    {
      rows := [];
      var rest := items.Keys;
      while rest != {}
        invariant rest <= items.Keys && PartlyListed(items, rows, rest)
        decreases |rest|
      {
        var i :| i in rest;
        var at := 0;
        while at < |rows| && !Before(items[i], items[rows[at]])
          invariant at <= |rows|
          invariant forall k :: 0 <= k < at ==> !Before(items[i], items[rows[k]])
        {
          at := at + 1;
        }
        InsertRow(items, rows, rest, i, at);
        rows := rows[..at] + [i] + rows[at..];
        rest := rest - {i};
      }
    }

    /** Blocks every pending item with a dead dep and returns the first pending item whose deps are all done. */
    method NextEligible() returns (pick: Option<Id>)
      modifies this`items
      ensures IsPick(old(items), pick)
      ensures items == Cascade(old(items))
    {
      var selected := items;
      var rows := SelectOrdered();
      pick := None;
      for k := 0 to |rows|
        invariant CascadedUpTo(selected, items, rows, k)
        invariant FirstEligible(selected, rows, k, pick)
      {
        var i := rows[k];
        ghost var now, found := items, pick;
        if selected[i].status == Pending {
          if Doomed(selected, i) {
            items := items[i := items[i].(status := Blocked)];
          } else if pick.None? && Eligible(selected, i) {
            pick := Some(i);
          }
        }
        NextRow(selected, now, items, rows, k, found, pick);
      }
      AllRowsCascaded(selected, items, rows);
      FirstEligibleIsPick(selected, rows, pick);
    }

    method SpawnItem(i: Id, t: TaskId, fate: SpawnFate)
      requires i in items && run.Some?
      modifies this
      ensures State() == Spawn(old(State()), i, t, fate)
    {
      if fate == NotStarted {
        return;
      }
      tasks := tasks[t := Queued];
      items := items[i := items[i].(status := Running, task := Some(t))];
      run := Some(run.value.(current := Some(i)));
      if fate == SpawnFailed {
        tasks := tasks[t := Ended];
        items := items[i := items[i].(status := Failed)];
        run := Some(run.value.(current := None));
        log := log + [LogSpawnFailed(i)];
        assert items == old(items)[i := old(items)[i].(status := Failed, task := Some(t))];
        assert tasks == old(tasks)[t := Ended];
        return;
      }
      log := log + [LogSpawned(i)];
    }

    /** Settles the in-flight item against its task; `busy` when the task is still live. */
    method ResolveInFlight() returns (busy: bool)
      requires run.Some?
      modifies this
      ensures busy <==> Waiting(old(State()))
      ensures State() == if busy then old(State()) else Resolve(old(State()))
      ensures busy <==> exists c :: AtWork(old(State()), c)
      ensures forall c :: InFlight(old(State()), c) && !busy ==> c in items && Reports(old(State()), c, items[c].status)
    {
      WaitingIsAtWork(State());
      if run.value.current.None? {
        return false;
      }
      var c := run.value.current.value;
      if c in items && items[c].status == Running {
        var t := items[c].task;
        var status := if t.Some? && t.value in tasks then Some(tasks[t.value]) else None;
        if status == Some(Queued) || status == Some(InProgress) || status == Some(BackgroundWaiting) {
          return true;
        }
        if status == Some(Completed) {
          items := items[c := items[c].(status := Done)];
          log := log + [LogResolved(c, Done)];
        } else if status == Some(AwaitingInput) {
          items := items[c := items[c].(status := Blocked)];
          log := log + [LogResolved(c, Blocked)];
        } else {
          items := items[c := items[c].(status := Failed)];
          log := log + [LogResolved(c, Failed)];
        }
      }
      run := Some(run.value.(current := None));
      busy := false;
    }

    /** One scheduler tick for this project. */
    method AdvanceQueue(t: TaskId, fate: SpawnFate) returns (pick: Option<Id>)
      modifies this
      ensures ValidPick(old(State()), pick)
      ensures State() == Tick(old(State()), pick, t, fate)
      ensures TickRows(old(State()), pick, t, fate, State())
    {
      ghost var before := State();
      forall p | ValidPick(before, p) ensures TickRows(before, p, t, fate, Tick(before, p, t, fate)) {
        TickByRows(before, p, t, fate);
      }
      if run.None? || run.value.status != Active {
        return None;
      }
      var busy := ResolveInFlight();
      if busy {
        return None;
      }
      pick := NextEligible();
      if pick.None? {
        if !(exists i | i in items :: items[i].status == Pending || items[i].status == Running) {
          run := Some(run.value.(status := Finished));
          log := log + [LogRunDone];
        }
        return;
      }
      SpawnItem(pick.value, t, fate);
    }

    method AddItems(added: seq<NewItem>, now: int) returns (base: int)
      requires added != []
      modifies this`items
      ensures IsMaxSeq(old(items), base)
      ensures forall i :: i in old(items) ==> old(items)[i].seqNo <= base
      ensures if old(items) == map[] then base == 0 else exists i :: i in old(items) && old(items)[i].seqNo == base
      ensures State() == old(State()).(items := Insert(old(items), added, base, now))
    {
      base := 0;
      var rest := items.Keys;
      var first := true;
      while rest != {}
        invariant rest <= items.Keys
        invariant first ==> rest == items.Keys && base == 0
        invariant !first ==> exists i :: i in items && i !in rest && items[i].seqNo == base
        invariant forall i :: i in items && i !in rest ==> items[i].seqNo <= base
        decreases |rest|
      {
        var i :| i in rest;
        if first || items[i].seqNo > base {
          base := items[i].seqNo;
        }
        first := false;
        rest := rest - {i};
      }
      assert first ==> items == map[];
      for n := 1 to |added| + 1
        invariant items == Insert(old(items), added[..n - 1], base, now)
      {
        var entry := added[n - 1];
        assert added[..n][..n - 1] == added[..n - 1];
        if entry.titled {
          items := items[entry.id := Item(base + n, now, entry.deps, Pending, None)];
        }
      }
      assert added[..|added|] == added;
    }

    /** Content edits are refused (409) unless the item is still pending; `textGiven` says whether a title or a detail
        is given. */
    method PatchItem(i: Id, textGiven: bool, newDeps: Option<set<Id>>, newSeq: Option<int>) returns (accepted: bool)
      modifies this`items
      ensures Possible(old(State()), PatchEvent(i, newDeps, newSeq))
      ensures State() == Apply(old(State()), PatchEvent(i, newDeps, newSeq))
      ensures !accepted ==> State() == old(State())
      ensures accepted && i in items && old(items)[i].status == Pending ==>
                items == old(items)[i := old(items)[i].(
                  deps := if newDeps.Some? then newDeps.value else old(items)[i].deps,
                  seqNo := if newSeq.Some? then newSeq.value else old(items)[i].seqNo)]
      ensures accepted <==>
                i in old(items) && (old(items)[i].status == Pending || (!textGiven && newDeps.None? && newSeq.None?))
    {
      if i !in items {
        return false;
      }
      if (textGiven || newDeps.Some? || newSeq.Some?) && items[i].status != Pending {
        return false;
      }
      if newDeps.Some? {
        items := items[i := items[i].(deps := newDeps.value)];
      }
      if newSeq.Some? {
        items := items[i := items[i].(seqNo := newSeq.value)];
      }
      assert items == if Editable(old(State()), i) then old(items)[i := Patched(old(items)[i], newDeps, newSeq)]
                      else old(items);
      accepted := true;
    }

    method DeleteItem(i: Id) returns (accepted: bool)
      modifies this`items
      ensures State() == Apply(old(State()), DeleteEvent(i))
      ensures accepted <==> i in old(items) && old(items)[i].status == Pending
      ensures items == if accepted then old(items) - {i} else old(items)
    {
      if i !in items || items[i].status != Pending {
        return false;
      }
      items := items - {i};
      accepted := true;
    }

    method ReorderQueue(order: seq<Id>)
      modifies this`items
      ensures State() == Apply(old(State()), ReorderEvent(order))
    {
      var seqNo := 0;
      var ids := items.Keys;
      for k := 0 to |order|
        invariant (seqNo, items) == Renumber(old(items), order[..k])
        invariant items.Keys == ids
      {
        assert order[..k + 1][..k] == order[..k];
        if order[k] in ids {
          seqNo := seqNo + 1;
          items := items[order[k] := items[order[k]].(seqNo := seqNo)];
        }
      }
      assert order[..|order|] == order;
    }

    method StartQueue(worktreeReady: bool) returns (accepted: bool)
      modifies this
      ensures State() == Start(old(State()), worktreeReady)
      ensures accepted <==>
                worktreeReady && (PendingIds(old(items)) != {} || (old(run).Some? && old(run).value.status == Paused))
      ensures !accepted ==> State() == old(State())
      ensures accepted ==>
                && items == old(items) && tasks == old(tasks) && run.Some? && run.value.status == Active
                && run.value.current == if old(run).Some? then old(run).value.current else None
    {
      var pending := set i | i in items && items[i].status == Pending;
      if pending == {} && !(run.Some? && run.value.status == Paused) {
        return false;
      }
      if !worktreeReady {
        return false;
      }
      if run.Some? {
        run := Some(run.value.(status := Active));
      } else {
        run := Some(Run(Active, None));
      }
      log := log + [LogStart];
      accepted := true;
    }

    method PauseQueue()
      modifies this
      ensures State() == Pause(old(State()))
      ensures items == old(items) && tasks == old(tasks)
      ensures run == if old(run).Some? && old(run).value.status == Active then Some(Run(Paused, old(run).value.current))
                     else old(run)
    {
      if run.Some? && run.value.status == Active {
        run := Some(run.value.(status := Paused));
      }
      log := log + [LogPause];
    }

    method ClearQueue()
      modifies this
      ensures State() == Clear(old(State()))
      ensures items == map[] && run == None && tasks == old(tasks)
    {
      items := map[];
      run := None;
      log := log + [LogCleared];
    }
  }
}
