/** One project's build queue. */
module QueueModel {
  import opened Optional

  // The state of one project's build queue and what each operation does to it.
  //
  // A state holds the `queue_items` rows, the `queue_runs` row, the statuses of the `tasks` the runner
  // spawned, and the lines `_queue_log` prints.  Every operation is a function from state to state; where
  // the program depends on its environment (the order SQL leaves open between rows that tie, the fate of a
  // spawn, the status a task ends in) the event carries the choice.

  type Id = nat
  type TaskId = nat

  datatype Status = Pending | Running | Done | Failed | Blocked

  datatype Item = Item(seqNo: int, created: int, deps: set<Id>, status: Status, task: Option<TaskId>)

  datatype RunStatus = Active | Paused | Finished

  datatype Run = Run(status: RunStatus, current: Option<Id>)

  datatype TaskStatus = Queued | InProgress | BackgroundWaiting | Completed | AwaitingInput | Ended

  datatype LogLine =
    | LogSpawned(id: Id)
    | LogSpawnFailed(id: Id)
    | LogResolved(id: Id, status: Status)
    | LogRunDone
    | LogStart
    | LogPause
    | LogCleared

  datatype State = State(
    items: map<Id, Item>,
    run: Option<Run>,
    tasks: map<TaskId, TaskStatus>,
    log: seq<LogLine>)

  const EMPTY := State(map[], None, map[], [])

  // ----- the SELECT of the scheduler -----

  predicate IsTerminal(st: Status) {
    st == Done || st == Failed || st == Blocked
  }

  predicate IsDone(items: map<Id, Item>, i: Id) {
    i in items && items[i].status == Done
  }

  predicate IsDead(items: map<Id, Item>, i: Id) {
    i in items && (items[i].status == Failed || items[i].status == Blocked)
  }

  predicate DepsDone(items: map<Id, Item>, i: Id)
    requires i in items
  {
    forall d | d in items[i].deps :: IsDone(items, d)
  }

  predicate HasDeadDep(items: map<Id, Item>, i: Id)
    requires i in items
  {
    exists d | d in items[i].deps :: IsDead(items, d)
  }

  predicate Eligible(items: map<Id, Item>, i: Id) {
    i in items && items[i].status == Pending && DepsDone(items, i)
  }

  predicate Doomed(items: map<Id, Item>, i: Id) {
    i in items && items[i].status == Pending && HasDeadDep(items, i)
  }

  /** `ORDER BY seq, created_at`; rows equal in both may come in either order. */
  predicate Before(a: Item, b: Item) {
    a.seqNo < b.seqNo || (a.seqNo == b.seqNo && a.created < b.created)
  }

  /** `pick` is an eligible item that no other eligible item must precede, or there is none. */
  ghost predicate IsPick(items: map<Id, Item>, pick: Option<Id>) {
    match pick
    case None => forall i :: !Eligible(items, i)
    case Some(p) => Eligible(items, p) && forall i :: Eligible(items, i) ==> !Before(items[i], items[p])
  }

  /** One level of the failure cascade. */
  function Cascade(items: map<Id, Item>): (r: map<Id, Item>)
  {
    map i | i in items :: if Doomed(items, i) then items[i].(status := Blocked) else items[i]
  }

  // ----- one scheduler tick -----

  function TaskOf(s: State, i: Id): Option<TaskStatus>
    requires i in s.items
  {
    var t := s.items[i].task;
    if t.Some? && t.value in s.tasks then Some(s.tasks[t.value]) else None
  }

  predicate Live(t: Option<TaskStatus>) {
    t == Some(Queued) || t == Some(InProgress) || t == Some(BackgroundWaiting)
  }

  /** What an item becomes once its task is no longer live. */
  function Verdict(t: Option<TaskStatus>): Status {
    if t == Some(Completed) then Done
    else if t == Some(AwaitingInput) then Blocked
    else Failed
  }

  predicate HasInFlight(s: State) {
    s.run.Some? && s.run.value.current.Some? &&
    var c := s.run.value.current.value;
    c in s.items && s.items[c].status == Running
  }

  predicate Waiting(s: State) {
    HasInFlight(s) && Live(TaskOf(s, s.run.value.current.value))
  }

  function Resolve(s: State): State
    requires s.run.Some?
  {
    if s.run.value.current.None? then s
    else
      var r := s.(run := Some(s.run.value.(current := None)));
      if HasInFlight(s) then
        var c := s.run.value.current.value;
        var v := Verdict(TaskOf(s, c));
        r.(items := s.items[c := s.items[c].(status := v)], log := s.log + [LogResolved(c, v)])
      else r
  }

  datatype SpawnFate = NotStarted | Started | SpawnFailed

  function Spawn(s: State, i: Id, t: TaskId, fate: SpawnFate): State
    requires i in s.items && s.run.Some?
  {
    match fate
    case NotStarted => s
    case Started =>
      s.(items := s.items[i := s.items[i].(status := Running, task := Some(t))],
         tasks := s.tasks[t := Queued],
         run := Some(s.run.value.(current := Some(i))),
         log := s.log + [LogSpawned(i)])
    case SpawnFailed =>
      s.(items := s.items[i := s.items[i].(status := Failed, task := Some(t))],
         tasks := s.tasks[t := Ended],
         run := Some(s.run.value.(current := None)),
         log := s.log + [LogSpawnFailed(i)])
  }

  predicate Unfinished(items: map<Id, Item>) {
    exists i | i in items :: items[i].status == Pending || items[i].status == Running
  }

  function FinishIfIdle(s: State): State
    requires s.run.Some?
  {
    if Unfinished(s.items) then s
    else s.(run := Some(s.run.value.(status := Finished)), log := s.log + [LogRunDone])
  }

  predicate Ticking(s: State) {
    s.run.Some? && s.run.value.status == Active
  }

  /** The scheduler gets as far as picking an item. */
  predicate Picking(s: State) {
    Ticking(s) && !Waiting(s)
  }

  /** The pick is made among the rows left once the in-flight item is resolved. */
  ghost predicate ValidPick(s: State, pick: Option<Id>) {
    if Picking(s) then IsPick(Resolve(s).items, pick) else pick == None
  }

  function Tick(s: State, pick: Option<Id>, t: TaskId, fate: SpawnFate): State
    requires pick.Some? ==> Picking(s) && pick.value in Resolve(s).items
  {
    if !Picking(s) then s
    else
      var r := Resolve(s);
      var c := r.(items := Cascade(r.items));
      match pick
      case None => FinishIfIdle(c)
      case Some(p) => Spawn(c, p, t, fate)
  }

  // ----- the queue routes -----

  datatype NewItem = NewItem(id: Id, titled: bool, deps: set<Id>)

  /** `COALESCE(MAX(seq), 0)` over the rows. */
  ghost predicate IsMaxSeq(items: map<Id, Item>, base: int) {
    if items == map[] then base == 0
    else (exists i :: i in items && items[i].seqNo == base) && forall i :: i in items ==> items[i].seqNo <= base
  }

  /** The rows one POST adds: untitled entries are skipped but still use up a position. */
  function Insert(items: map<Id, Item>, added: seq<NewItem>, base: int, now: int): map<Id, Item>
  {
    if added == [] then items
    else
      var n := added[|added| - 1];
      var front := Insert(items, added[..|added| - 1], base, now);
      if n.titled then front[n.id := Item(base + |added|, now, n.deps, Pending, None)] else front
  }

  /** Positions 1, 2, ... are handed to the listed ids that exist; a repeated id keeps its last one. */
  function Renumber(items: map<Id, Item>, order: seq<Id>): (int, map<Id, Item>)
  {
    if order == [] then (0, items)
    else
      var i := order[|order| - 1];
      var (n, front) := Renumber(items, order[..|order| - 1]);
      if i in items && i in front then (n + 1, front[i := front[i].(seqNo := n + 1)]) else (n, front)
  }

  function PendingIds(items: map<Id, Item>): set<Id> {
    set i | i in items && items[i].status == Pending
  }

  function RunningIds(items: map<Id, Item>): set<Id> {
    set i | i in items && items[i].status == Running
  }

  function Start(s: State, worktreeReady: bool): State {
    var paused := s.run.Some? && s.run.value.status == Paused;
    if (PendingIds(s.items) == {} && !paused) || !worktreeReady then s
    else
      s.(run := Some(Run(Active, if s.run.Some? then s.run.value.current else None)),
         log := s.log + [LogStart])
  }

  function Pause(s: State): State {
    s.(run := if Ticking(s) then Some(s.run.value.(status := Paused)) else s.run, log := s.log + [LogPause])
  }

  function Clear(s: State): State {
    s.(items := map[], run := None, log := s.log + [LogCleared])
  }

  // ----- events and runs -----

  datatype Event =
    | TickEvent(pick: Option<Id>, newTask: TaskId, fate: SpawnFate)
    | AddEvent(added: seq<NewItem>, base: int, now: int)
    | PatchEvent(id: Id, newDeps: Option<set<Id>>, newSeq: Option<int>)
    | DeleteEvent(id: Id)
    | ReorderEvent(order: seq<Id>)
    | StartEvent(worktreeReady: bool)
    | PauseEvent
    | ClearEvent
    | TaskEvent(taskId: TaskId, newStatus: Option<TaskStatus>)

  predicate Mentions(line: LogLine, i: Id) {
    match line
    case LogSpawned(j) => i == j
    case LogSpawnFailed(j) => i == j
    case LogResolved(j, _) => i == j
    case _ => false
  }

  /** A uuid nobody has seen before. */
  predicate FreshId(s: State, i: Id) {
    i !in s.items && forall k | 0 <= k < |s.log| :: !Mentions(s.log[k], i)
  }

  ghost predicate Possible(s: State, e: Event) {
    match e
    case TickEvent(pick, t, _) =>
      ValidPick(s, pick) && t !in s.tasks && forall i :: i in s.items ==> s.items[i].task != Some(t)
    case AddEvent(added, base, _) =>
      && IsMaxSeq(s.items, base)
      && (forall k :: 0 <= k < |added| ==> FreshId(s, added[k].id))
      && (forall j, k :: 0 <= j < k < |added| ==> added[j].id != added[k].id)
    case TaskEvent(t, _) => t in s.tasks
    case _ => true
  }

  function Patched(item: Item, newDeps: Option<set<Id>>, newSeq: Option<int>): Item {
    var a := if newDeps.Some? then item.(deps := newDeps.value) else item;
    if newSeq.Some? then a.(seqNo := newSeq.value) else a
  }

  predicate Editable(s: State, i: Id) {
    i in s.items && s.items[i].status == Pending
  }

  ghost function Apply(s: State, e: Event): State
    requires Possible(s, e)
  {
    match e
    case TickEvent(pick, t, fate) => Tick(s, pick, t, fate)
    case AddEvent(added, base, now) => s.(items := Insert(s.items, added, base, now))
    case PatchEvent(i, d, q) =>
      if Editable(s, i) then s.(items := s.items[i := Patched(s.items[i], d, q)]) else s
    case DeleteEvent(i) => if Editable(s, i) then s.(items := s.items - {i}) else s
    case ReorderEvent(order) => s.(items := Renumber(s.items, order).1)
    case StartEvent(ok) => Start(s, ok)
    case PauseEvent => Pause(s)
    case ClearEvent => Clear(s)
    case TaskEvent(t, st) => s.(tasks := if st.Some? then s.tasks[t := st.value] else s.tasks - {t})
  }

  /** Items and deps stay as they are: no add, no delete, no clear, no edit of deps. */
  predicate KeepsShape(e: Event) {
    !e.AddEvent? && !e.DeleteEvent? && !e.ClearEvent? && (e.PatchEvent? ==> e.newDeps.None?)
  }

  /** Every event of the run was possible when it happened. */
  ghost predicate IsRun(s: State, events: seq<Event>)
    decreases |events|
  {
    events != [] ==> Possible(s, events[0]) && IsRun(Apply(s, events[0]), events[1..])
  }

  ghost function After(s: State, events: seq<Event>): State
    requires IsRun(s, events)
    decreases |events|
  {
    if events == [] then s else After(Apply(s, events[0]), events[1..])
  }
}
