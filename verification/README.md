# Models and proofs for tank, omnigent and the mobile timeline

Dafny models of the stateful and algorithmic parts of this repository, with proofs of what they keep, whatever the
input, the order of events or the behaviour of the other side.  `dafny verify dfyconfig.toml` checks everything.

## What is modelled

**The build queue of tank** (`otheros/tank/api.py`).  One project's queue is a state of items, task statuses, the run
row and the queue log.  `QueueModel` gives each route and each scheduler tick as a step from state to state, with what
the program does not decide (which of two rows that tie in the listing comes first, whether the agent starts, what a
task reports) as a parameter of the step.  `QueueStore.Store` is the program's form: a class whose methods update the
rows one by one, each proved to make exactly that step.  `QueueTick` says what a tick does to every row in terms of
the rows alone.  `QueueSafety` proves what every reachable state keeps, `QueueConfluence` that the outcome does not
depend on the schedule, `QueueProgress` that every run ends, finished or stuck, `QueueStuck` which of the two it is,
and `QueueOutcome` that this, and how each item ends, can be told from the queue at the start and from what each
item's own work would come to.

**TODO.md** (same file).  `TextLines` is Python's line handling, `TodoParser` the block scanner, `TodoRender` the
printer, `TodoEdits`, `TodoDetails`, `TodoMoves` and `TodoReorder` what each route does to the todos the parser will
report afterwards, and `TodoFile.File` the routes themselves on the file's contents.  Each frame law says exactly when
it holds.  `TodoReported`, `TodoBody` and `TodoWritten` say the same of the characters and lines themselves: what is
reported of a file, what is printed of details, and what each route writes for what it is given.

**Delivery and replay** (`otheros/omnigent/omnigent/_native_post_delivery.py`).  `Delivery` is the retry loop against
a network in which any attempt may be committed or not; `DeadLetters` the two files on disk and the startup drain;
`AtMostOnce` runs of live posts and replay passes; `Losses` exactly when an item is lost, and `Recovery` that a replay
delivers what a live post could not.  `Honest` is the only
assumption about the network: any response but a 2xx, a failed connection or an exhausted pool means the server
committed nothing, and a 2xx that it did.

**The interaction bridge** (`otheros/omnigent/omnigent/antigravity_native_interactions.py`).  `Bridge` is the loop
that surfaces a waiting step, re-reads the trajectory, delivers and re-targets, and `BridgeRun` what it does, told from
the reads alone.  The trajectory read at each moment is arbitrary.

**Tool-call ids** (`otheros/omnigent/omnigent/antigravity_native_steps.py`).  `CallIds` is the fallback allocator.

**Task events** (`get_task` of `otheros/tank/api.py`).  `EventCollapse` is the one pass that merges Pre and Post
events, proved against a pairing defined by counting alone, and `EventListing` the listing told from turns, tools and
kinds.

**Mobile timeline, mentions and inbox** (`apps/mobile/lib`).  `Threads`, `ThreadRows` and `ThreadLinks` are the reply
bundles, `ThreadOrder` the order within one, `IdWalk` and `ThreadWalk` when the walk that collects it ends, `Coalesce`
the merging of repeated activities, `Mentions` and `MentionLaws` the composer's mentions, `MentionReader` the pattern
by which the server reads them (`server/internal/util/mention.go`), `Inbox` and `InboxListing` the one-row-per-issue
list.

## Where the code says less than its documentation

- A PATCH of a todo that leaves `details` out is documented to keep them.  It re-renders the details it parsed, so
  they stay as they were exactly when they are canonical (no blank first or last line, every line right-trimmed), the
  indent of a todo with details is spaces alone, and the text given holds no line boundary:
  `TodoDetails.EditWithoutDetails`; `TodoDetails.EditCanChangeDetails` gives a file.
- Deleting a todo can turn a line that followed it into a detail of the todo before it: `TodoMoves.DeleteFrame` says
  exactly when, `TodoMoves.DeleteCanSwallow` gives a file.
- An undeliverable event is documented to be recoverable on disk.  A redirect counts as delivered, so its record is
  dropped or never made; and a record is lost when it cannot be written, or when rotation drops it.
  `Losses.LostExactly` says that these are all the ways, and `Losses.RedirectLoses` gives a run.
- The queue is documented to move on past items that cannot run.  Items on a path of pending items that ends in a
  missing id or in a cycle never run; each waits for as long as no dep of it fails, and until then the run does not
  finish: `QueueStuck.BadPathKeepsOpen`.  A run that is over is finished, and not stuck, exactly when every item of every
  such path has a failed or blocked dep by then (`QueueStuck.FinishesExactly`), which can be told beforehand
  (`QueueOutcome.FinishesByRules`); `QueueStuck.FinishesOverBadPath` gives a run that does finish.  A queue with
  nothing running or doomed is stuck exactly when every pending item starts such a path: `QueueStuck.StuckExactly`;
  `QueueStuck.StuckReachable` gives a run.
- The walk over replies follows ids, and the source assumes that they are unique.  It ends exactly when no chain of
  replies from the start comes back to an id it has passed: `ThreadWalk.WalkEndsExactly`.  With unique ids none does;
  with repeated ids one may (`ThreadWalk.DuplicateIdLoops`) or may not (`ThreadWalk.DuplicateIdsMayEnd`).  The rows are
  built for every timeline on which the walks end.
- As many entries are documented to be shown as were loaded.  That holds exactly when no chain of parents runs into a
  cycle: `ThreadRows.CountsAgree`; `ThreadRows.CycleIsLost` gives two comments that are lost.
- A verdict is documented to go to the gate it was given for, or to that gate's retry.  It does exactly when the
  surfaced step still waits or the waiting step of highest index asks the same: `Bridge.ReachesGateExactly`;
  `Bridge.OtherGateAnswered` gives a run in which another gate is answered.
- A bundle is documented to be in chronological order.  It is in breadth-first order, and that is the input order
  exactly when replies to earlier comments come earlier: `ThreadOrder.ChronologicalExactly`.
- A mention inserted in front of another one has its marker pushed last, so the text is linked only when the later
  mentions have that same name: `MentionLaws.InsertedIsLinked`.  Even then the links are turned among them, and each
  is to its own target exactly when the later mentions are the very one inserted: `MentionLaws.OwnTargetsExactly`;
  `MentionLaws.LinksSwap` gives two mentions that are sent as links to each other.  A name with white space never
  links: `MentionLaws.SpacedNeverLinks`.
- Coalescing twice is coalescing once exactly when no two neighbouring segments have last entries that join, as on any
  timeline in time order: `Coalesce.IdempotentExactly`.

## Model

| member | source | states |
|---|---|---|
| QueueStore.Store.SelectOrdered | otheros/tank/api.py:1942-1946 | the rows come ordered by seq, then by creation time, each once |
| QueueStore.Store.NextEligible | otheros/tank/api.py:1934-1961 | in one pass, blocks exactly the pending items with a failed or blocked dependency and returns the first pending item whose dependencies are all done, judged by the statuses read before the pass |
| QueueStore.FirstEligibleIsPick | otheros/tank/api.py:1934-1961 | the first eligible row of any listing is a pick the scheduler's order allows |
| QueueStore.Store.SpawnItem | otheros/tank/api.py:1964-2008 | claims the item, records its task, and leaves it running, failed, or not started, as the agent fared |
| QueueStore.Store.ResolveInFlight | otheros/tank/api.py:2017-2064 | waits while the task's row reads queued, running or waiting in the background; otherwise makes the item done if it reads completed, blocked if it reads awaiting input, failed in all other cases and without a row, and frees the run |
| QueueStore.Store.AdvanceQueue | otheros/tank/api.py:2011-2083 | one tick, row by row, is one step of the model with an allowed pick, and does to every row what `QueueTick.TickRows` says |
| QueueTick.TickByRows | otheros/tank/api.py:1934-2083 | a tick, told from the rows alone: what the task of the in-flight item makes of it, which pending items are blocked, which is picked, what spawning makes of it, when the run is done, and that nothing else changes |
| QueueTick.TickRowsDetermine | otheros/tank/api.py:1934-2083 | and these rules leave no other outcome |
| QueueStore.Store.AddItems | otheros/tank/api.py:3671-3694 | new pending rows after the highest seq, untitled entries skipped, existing rows untouched |
| QueueStore.Store.PatchItem | otheros/tank/api.py:3698-3725 | edits of title, detail, dependencies or position are accepted exactly on a pending item; dependencies and position change as asked |
| QueueStore.Store.DeleteItem | otheros/tank/api.py:3729-3742 | removes an item exactly when it is pending |
| QueueStore.Store.ReorderQueue | otheros/tank/api.py:3746-3760 | changes the order column of known rows and nothing else |
| QueueStore.ReorderedListing | otheros/tank/api.py:3746-3760 | after a reorder that names every item once, the items are listed in exactly that order |
| QueueStore.RenumberPosition | otheros/tank/api.py:3746-3760 | a known id gets the number of known ids up to its last place in the list; ids not listed keep their position |
| QueueStore.Store.StartQueue | otheros/tank/api.py:3793-3828 | starts or resumes a run; accepted exactly when the worktree is ready and items are pending or the run is paused |
| QueueStore.Store.PauseQueue | otheros/tank/api.py:3831-3842 | pauses a running run, and no other, and touches no item |
| QueueStore.Store.ClearQueue | otheros/tank/api.py:3850-3870 | removes the items and the run |
| QueueSafety.InsertShape | otheros/tank/api.py:3671-3694 | an add keeps every row, makes only pending rows without a task, and skips no titled entry |
| QueueSafety.RenumberShape | otheros/tank/api.py:3746-3760 | a reorder loses, adds and alters nothing but positions |
| QueueSafety.StepKeepsInv | otheros/tank/api.py:1934-2083 | every tick, route and task change keeps the invariant of the queue |
| QueueSafety.ReachableInv | otheros/tank/api.py:1811-1822 | so it holds in every reachable state |
| QueueSafety.MutualExclusion | otheros/tank/api.py:1811-1822 | in every reachable state at most one item runs, and the run row's current item is it |
| QueueSafety.SpawnedAfterPrerequisites | otheros/tank/api.py:1942-1987 | an item with a task was spawned once, and each dependency was logged done before that and still is done |
| QueueSafety.DepPathGoesBack | otheros/tank/api.py:1942-1987 | along any chain of dependencies, spawns happened strictly earlier |
| QueueSafety.CyclesNeverSpawn | otheros/tank/api.py:1942-1987 | no item on a dependency cycle is ever spawned, in any run |
| QueueConfluence.TickMoves | otheros/tank/api.py:2011-2083 | a tick moves each status only along the lifecycle, and only for a cause: an outcome, dependencies done, or a dead dependency |
| QueueConfluence.JustifiedRun | otheros/tank/api.py:1934-2083 | over a whole run, every settled status has a cause that still stands |
| QueueConfluence.RunHasOutcome | otheros/tank/api.py:2017-2083 | every run reports some outcome of each item, by the statuses of the tasks, that it is faithful to throughout |
| QueueConfluence.Confluence | otheros/tank/api.py:1934-2083 | two runs from one reachable state with the same outcomes that both come to rest agree on every status, whatever the ticks, reorders, pauses and restarts |
| QueueConfluence.FinalStatuses | otheros/tank/api.py:1934-2083 | in a finished queue an item is blocked if a dependency is failed or blocked, and has its own outcome otherwise, which is what its task's row reported |
| QueueConfluence.FinishedMeansAtRest | otheros/tank/api.py:2069-2083 | a run marked done has no item pending or running |
| QueueProgress.TickProgress | otheros/tank/api.py:2011-2083 | a tick that starts what it picks waits on a live task, lowers a measure, or finds the queue stuck |
| QueueProgress.NoChangeMeansStuck | otheros/tank/api.py:2066-2083 | with no item in flight, a tick changes nothing exactly when items are pending and none is eligible or doomed |
| QueueProgress.QueueTerminates | otheros/tank/api.py:2011-2094 | with items and dependencies fixed, and ticks, starts, pauses, task changes and reorders in any order: the run is finished or stuck once more ticks than there were pending items have either waited on no task and started what they picked, or come after the run was over |
| QueueProgress.QueueFinishes | otheros/tank/api.py:2011-2094 | with dependencies that exist and form no cycle it is then finished, whatever fails and blocks others on the way |
| QueueProgress.FinishingRun | otheros/tank/api.py:2011-2094 | a run of one open item, reachable, that meets these terms; the item ends done |
| QueueProgress.WellFoundedNeverStuck | otheros/tank/api.py:1934-1961 | such a queue is never stuck |
| QueueStuck.BadPathIsHeld | otheros/tank/api.py:1942-1958 | over any such run, each item of a path of pending items that ends in a missing id or a cycle waits, or is blocked by a failed or blocked dependency |
| QueueStuck.BadPathKeepsOpen | otheros/tank/api.py:1942-2083 | such an item is pending for as long as no dependency of it failed or is blocked, and until then no tick marks the run done |
| QueueStuck.FinishesExactly | otheros/tank/api.py:1934-2094 | a run that is over is finished with nothing open exactly when every item of every path of pending items that ended in a missing id or a cycle at its start has a failed or blocked dependency by then |
| QueueStuck.CascadingRun | otheros/tank/api.py:1934-2094 | of two items the first fails and the second, whatever else it depends on, is blocked by that: a reachable run that meets the terms above and finishes |
| QueueStuck.FinishesOverBadPath | otheros/tank/api.py:1934-2094 | one such run over a path that ends in a missing id |
| QueueOutcome.EndsByRules | otheros/tank/api.py:1934-2083 | at rest an item is done, or dead, exactly if the rules force it from the start: it was so, its own work ends so with all dependencies done, or a dependency is dead |
| QueueOutcome.FinishesByRules | otheros/tank/api.py:1934-2094 | a run that is over is finished exactly when the rules settle every item, and exactly when they kill a dependency of every item on a path of pending items that ends in a missing id or a cycle |
| QueueStuck.PendingWasPending | otheros/tank/api.py:1934-2094 | nothing goes back to pending while items and dependencies stay |
| QueueStuck.StuckExactly | otheros/tank/api.py:1942-1958 | with nothing running and nothing to block, a queue is stuck exactly when items are pending and each starts such a path |
| QueueStuck.StuckReachable | otheros/tank/api.py:1942-2083 | an add and a start lead to an active queue that is stuck |
| QueueProgress.StuckHasBadPath | otheros/tank/api.py:1942-1958 | in a stuck queue the dependencies of every pending item lead to a missing id or into a cycle |
| TextLines.SplitConcat | otheros/tank/api.py:3407 | splitting after a text that ends its line starts afresh, CR LF and the other line boundaries included |
| TextLines.SplitJoin | otheros/tank/api.py:3571-3572 | the lines written are the lines read back |
| TextLines.SplitTerminated | otheros/tank/api.py:3494-3495 | terminating a file adds at most an empty line |
| TextLines.SplitExactly | otheros/tank/api.py:3403-3404 | the lines are those, and no others, that with a terminator each make up the text |
| TodoParser.ParseTodos | otheros/tank/api.py:3395-3441 | the nested scanning loops report the blocks of the file: checkbox, dedented details, first and last line |
| TodoParser.ScanDetails | otheros/tank/api.py:3414-3431 | the inner loop with its buffered blanks finds the longest run of detail and blank lines that ends in a detail line |
| TodoParser.ParseConcat | otheros/tank/api.py:3395-3441 | the scanner re-synchronises: two parts of a file parse as if alone unless a block left open swallows lines |
| TodoParser.SwallowsBreaks | otheros/tank/api.py:3395-3441 | and if one does, they do not |
| TodoParser.ParseShift | otheros/tank/api.py:3395-3441 | moving lines shifts the reported todos uniformly |
| TodoParser.ParseInOrder | otheros/tank/api.py:3395-3441 | todos come in file order, within the file, their blocks disjoint |
| TodoParser.Locate | otheros/tank/api.py:3460-3461 | a reported todo is the parse of its own block, and the others are the parse of what surrounds it |
| TodoReported.ReportedExactly | otheros/tank/api.py:3395-3442 | the todos reported are the checkbox lines, all of them, in order, each with the box, indent and text of its line; the block ends with the last line that is blank or indented by six more, and is no checkbox, and its details are these lines without the indent |
| TodoRender.RenderBlock | otheros/tank/api.py:3445-3457 | the printer's loops produce the checkbox line and the padded, trimmed body |
| TodoBody.BodyExactly | otheros/tank/api.py:3445-3457 | the lines printed of details are those given, each without trailing white space, from the first that is not empty to the last that is not blank, and no others |
| TodoRender.HeadLineMatches | otheros/tank/api.py:3445-3457 | a printed checkbox line matches the checkbox pattern with the groups it was printed from |
| TodoRender.PaddedBody | otheros/tank/api.py:3380-3457 | a printed body is read back exactly when it is empty, or the indent is spaces and no line is a checkbox |
| TodoEdits.UpdateFrame | otheros/tank/api.py:3553-3572 | after a PATCH the parser reports the edited todo and all others, up to one shift, exactly when the new fields are clean |
| TodoEdits.UpdateOutcome | otheros/tank/api.py:3553-3572 | with fields free of line boundaries, the only way it goes wrong is a block that ends too early |
| TodoWritten.PatchSays | otheros/tank/api.py:3553-3574 | after a PATCH the todo has the box, the trimmed text and the details given, or what was there where none is given, and later todos move by what it grew, exactly when no line of its block ends early or starts another |
| TodoWritten.PatchWrites | otheros/tank/api.py:3553-3574 | its lines are written anew with the indent and marker they had, and all other lines stay |
| TodoWritten.FoundExactly | otheros/tank/api.py:3460-3462 | a PATCH or DELETE is refused exactly when no todo is reported on that line |
| TodoEdits.ParsedClean | otheros/tank/api.py:3395-3441 | the parser never reports a text with a line boundary, or details with one that is not a line feed |
| TodoDetails.RenderingKeepsCanonical | otheros/tank/api.py:3445-3457 | printing gives details back unchanged exactly when they are canonical |
| TodoDetails.EditWithoutDetails | otheros/tank/api.py:3543-3572 | a PATCH that gives no details changes only box and text, exactly when the text holds no line boundary, the details are canonical and, if any, the indent is spaces |
| TodoDetails.EditCanChangeDetails | otheros/tank/api.py:3543-3572 | a file whose details a tick of the box changes |
| TodoMoves.AddFrame | otheros/tank/api.py:3486-3504 | an add appends exactly the todo asked for, at the line returned, exactly when its fields are clean |
| TodoWritten.AddSays | otheros/tank/api.py:3486-3503 | the todo appended has the trimmed text, the details given, no tick and no indent, exactly when its block stands alone |
| TodoWritten.AddWrites | otheros/tank/api.py:3486-3503 | the lines there stay, and its block follows |
| TodoMoves.DeleteFrame | otheros/tank/api.py:3577-3589 | a delete removes one todo and shifts the later ones, exactly when no block left open before it swallows lines after it |
| TodoWritten.DeleteWrites | otheros/tank/api.py:3577-3590 | exactly the lines of its block are taken out |
| TodoMoves.DeleteAfterDeeper | otheros/tank/api.py:3577-3589 | it does so whenever the todo before is indented at least as far |
| TodoMoves.DeleteSwallows | otheros/tank/api.py:3577-3589 | a family of files where it does not |
| TodoMoves.DeleteCanSwallow | otheros/tank/api.py:3577-3589 | one such file |
| TodoReorder.OrderedIsPermutation | otheros/tank/api.py:3613-3623 | for any order list, each todo is taken once |
| TodoReorder.RequestedExactly | otheros/tank/api.py:3613-3619 | known lines without repetition are honoured as they stand |
| TodoWritten.OrderedRule | otheros/tank/api.py:3608-3621 | todos asked for come first, by their first mention; the others follow in file order |
| TodoWritten.ReorderWrites | otheros/tank/api.py:3622-3630 | the lines before the first todo stay, and the lines of each todo follow as they were |
| TodoReorder.ReorderFrame | otheros/tank/api.py:3599-3630 | re-parsing the rewritten file gives the same todos, content intact, requested ones first, the others in file order |
| TodoFile.File.ListTodos | otheros/tank/api.py:3471-3477 | the todos of the file, none without a file |
| TodoFile.File.AddTodo | otheros/tank/api.py:3486-3504 | refuses a blank text; otherwise writes the added todo and returns its line |
| TodoFile.File.UpdateTodo | otheros/tank/api.py:3553-3573 | the error replies and the new contents of a PATCH |
| TodoFile.File.DeleteTodo | otheros/tank/api.py:3577-3590 | the error replies and the new contents of a delete |
| TodoFile.File.ReorderTodos | otheros/tank/api.py:3599-3630 | the todos returned are those of the file, each once, in the new order |
| TodoFile.File.OrderTodos | otheros/tank/api.py:3611-3623 | the loops over the order list and the rest build that order |
| EventCollapse.FindTurn | otheros/tank/api.py:3946-3950 | an event goes to the first window that holds it |
| EventCollapse.InLastStartedTurn | otheros/tank/api.py:3925-3950 | when turns start one after another, that is the last turn that has started |
| EventCollapse.Collapse | otheros/tank/api.py:3937-3965 | the pass with its queues of indices lists one row per event that no Pre is waiting for, each showing its answer, and the queues are the rows of the open Pre events |
| EventCollapse.ListEvents | otheros/tank/api.py:3925-3965 | the listing of the raw events of a task, turns included |
| EventCollapse.AnswersOldestOpen | otheros/tank/api.py:3932-3935 | a Post answers a Pre exactly when that Pre is the oldest unanswered one of its turn and tool |
| EventCollapse.OneToOne | otheros/tank/api.py:3932-3935 | no Pre has two answers and no Post answers two |
| EventCollapse.UnmatchedExactly | otheros/tank/api.py:3956-3962 | a Post keeps a row of its own exactly when no earlier Pre of its turn and tool is open |
| EventCollapse.QueuedAreOpen | otheros/tank/api.py:3938-3965 | a queued index points at an unanswered Pre row of its key, and indices increase |
| EventCollapse.ShownOrAnswered | otheros/tank/api.py:3932-3965 | every event has its row, or is a Pre whose row shows its answer |
| EventCollapse.RowCount | otheros/tank/api.py:3932-3965 | rows are events less matches |
| EventCollapse.MatchesAreMost | otheros/tank/api.py:3932-3965 | the number of matches has a closed form: the least, over all cuts, of the Pre before the cut and the Post after it |
| EventListing.PairsExactly | otheros/tank/api.py:3957-3965 | a Post answers the Pre of the same turn and tool that comes before it, that nothing has answered, and before which all of that turn and tool have been |
| EventListing.RowsExactly | otheros/tank/api.py:3957-3968 | one row for each event that answers nothing, in order; an answered Pre is shown as its answer, every other event as itself |
| EventListing.TurnExactly | otheros/tank/api.py:3924-3948 | an event belongs to the first turn between whose start and the next one it falls, and to none if there is none |
| EventListing.ItemsAre | otheros/tank/api.py:3949-3955 | what is listed of an event, and the tool it is paired by, are its own |
| Delivery.PostWithRetry | otheros/omnigent/omnigent/_native_post_delivery.py:213-299 | the retry loop stops at the attempt, and with the result, that `Delivery.StopsAt` says |
| Delivery.StopsExactly | otheros/omnigent/omnigent/_native_post_delivery.py:253-299 | every attempt but the last got a status to retry or an error that is safe to retry; the last did not, unless it was the last allowed; and what is handed back is what it got |
| Delivery.PostCommits | otheros/omnigent/omnigent/_native_post_delivery.py:135-299 | on an honest network an item is committed at most once, and not at all when the failure was neither accepted nor ambiguous |
| Delivery.BlindRetryCommitsTwice | otheros/omnigent/omnigent/_native_post_delivery.py:257-271 | retrying an ambiguous failure could commit twice |
| DeadLetters.BridgeDir.AppendDeadLetter | otheros/omnigent/omnigent/_native_post_delivery.py:48-122 | appends one record; at the cap the file first becomes the backup; a fault before that changes nothing, one after it loses the record and the old backup |
| DeadLetters.BridgeDir.DrainEntry | otheros/omnigent/omnigent/_native_post_delivery.py:503-540 | one entry: tried exactly when it is replayable and the budget is not spent, then dropped or kept with its classification refreshed |
| DeadLetters.BridgeDir.DrainFile | otheros/omnigent/omnigent/_native_post_delivery.py:500-542 | one file's loop is the pass over its entries with what is left of the budget |
| DeadLetters.BridgeDir.DrainBoth | otheros/omnigent/omnigent/_native_post_delivery.py:493-542 | both files in turn are one pass over their entries, and a file with nothing tried is not rewritten |
| DeadLetters.BridgeDir.ReplayDeadLetters | otheros/omnigent/omnigent/_native_post_delivery.py:424-556 | backup first; what is left on disk, the count returned, no re-POST beyond the record limit or after the deadline, and nothing written by a pass without attempts |
| DeadLetters.DrainIsSurvivors | otheros/omnigent/omnigent/_native_post_delivery.py:477-556 | the entries kept are the original sequence without exactly the delivered ones, in order, tried ones reclassified; only the first replayable ones within the budget are tried |
| DeadLetters.DrainCounts | otheros/omnigent/omnigent/_native_post_delivery.py:477-556 | the attempts are the smaller of the budget and the replayable records; the count returned is the number removed |
| DeadLetters.DrainConcat | otheros/omnigent/omnigent/_native_post_delivery.py:477-556 | draining two files in turn is draining them as one |
| Recovery.ReplayableExactly | otheros/omnigent/omnigent/_native_post_delivery.py:328-375 | the records re-posted are those that can be routed, whose failure was not ambiguous, and that saw no response or one to retry |
| Recovery.KeptExactly | otheros/omnigent/omnigent/_native_post_delivery.py:523-540 | an accepted re-post leaves nothing, a refused one the same record with the status and the ambiguity of this attempt |
| Recovery.FailureRecovers | otheros/omnigent/omnigent/codex_native_forwarder.py:5691-5811 | an item whose live post ran out of attempts is committed once by the first replay that gets to its record and is answered by a 2xx, and the record is gone |
| AtMostOnce.StepKeepsInv | otheros/omnigent/omnigent/_native_post_delivery.py:328-375 | live posts and replays keep: every replayable record of an item has no commit |
| AtMostOnce.AtMostOnceDelivery | otheros/omnigent/omnigent/_native_post_delivery.py:328-556 | so do runs of any length |
| AtMostOnce.CommittedAtMostOnce | otheros/omnigent/omnigent/codex_native_forwarder.py:5758-5880 | in any run each conversation item is committed at most once |
| AtMostOnce.DrainCommitsOnce | otheros/omnigent/omnigent/_native_post_delivery.py:523-542 | a pass commits an item at most once, and only one that a replayable record names |
| Losses.DrainLosesExactly | otheros/omnigent/omnigent/_native_post_delivery.py:503-542 | a pass leaves an item neither committed nor on disk exactly when every record of it is replayable, within the budget, and answered by a redirect |
| Losses.ReplayLosesItem | otheros/omnigent/omnigent/_native_post_delivery.py:503-542 | with one record of the item on disk, exactly when that record is |
| Losses.StepLosesExactly | otheros/omnigent/omnigent/codex_native_forwarder.py:5691-5811 | a live post or a replay loses an item exactly by a redirect, an unwritten record of an uncommitted item, or rotation |
| Losses.LostExactly | otheros/omnigent/omnigent/codex_native_forwarder.py:5691-5880 | over any run an item ends up lost exactly when some step loses it |
| Losses.NothingLostExactly | otheros/omnigent/omnigent/codex_native_forwarder.py:5691-5880 | from the start, nothing is lost exactly when no step loses anything |
| Losses.NothingIsLost | otheros/omnigent/omnigent/codex_native_forwarder.py:5758-5880 | so without redirects, rotation losses and disk errors every posted item is committed or on disk |
| Losses.RedirectLoses | otheros/omnigent/omnigent/codex_native_forwarder.py:5691-5718 | a run in which a redirect loses an item |
| Bridge.FreshestWaiting | otheros/omnigent/omnigent/antigravity_native_interactions.py:234-272 | the running best is the freshest waiting step of a kind |
| Bridge.FreshestIs | otheros/omnigent/omnigent/antigravity_native_interactions.py:234-272 | which is eligible and of highest index |
| Bridge.WaitingStepAt | otheros/omnigent/omnigent/antigravity_native_interactions.py:275-301 | the step waiting at a trajectory and index |
| Bridge.AtIs | otheros/omnigent/omnigent/antigravity_native_interactions.py:275-301 | found whenever one waits there |
| Bridge.FindTarget | otheros/omnigent/omnigent/antigravity_native_interactions.py:390-392 | the pinned step if it still waits, else the freshest of its kind |
| Bridge.BridgeInteraction | otheros/omnigent/omnigent/antigravity_native_interactions.py:360-478 | the loop's elicitations and deliveries, in order, for any server and any user |
| BridgeRun.FreshestExactly | otheros/omnigent/omnigent/antigravity_native_interactions.py:234-272 | the freshest step is the first of highest index among those of the kind and beyond the index given |
| BridgeRun.TargetExactly | otheros/omnigent/omnigent/antigravity_native_interactions.py:387-392 | the verdict goes to the first step under the surfaced trajectory and index; only if none waits there to the freshest of the kind |
| BridgeRun.RunExactly | otheros/omnigent/omnigent/antigravity_native_interactions.py:360-478 | the loop surfaces, delivers what was answered, and goes on exactly after a delivery that came too late while a step of the kind waits beyond its target, with the freshest such |
| Bridge.Bounded | otheros/omnigent/omnigent/antigravity_native_interactions.py:360-478 | at most `max_retries` elicitations, and only a delivery that came too late is followed by anything |
| Bridge.AtMostOneSuccess | otheros/omnigent/omnigent/antigravity_native_interactions.py:360-478 | at most one delivery succeeds, the last action of the loop |
| Bridge.Pinned | otheros/omnigent/omnigent/antigravity_native_interactions.py:382-400 | a delivery goes to the surfaced step whenever it still waits, else to the freshest of its kind |
| Bridge.FreshestLeads | otheros/omnigent/omnigent/antigravity_native_interactions.py:234-272 | the freshest step leads: above all earlier ones, and no later one is above it |
| Bridge.ReachesGateExactly | otheros/omnigent/omnigent/antigravity_native_interactions.py:382-400 | if steps keep what they ask while they wait, a delivery is made to a step that asks what was answered exactly when, in the read before it, the surfaced step waits or the leading one of its kind asks the same |
| Bridge.OtherGateAnswered | otheros/omnigent/omnigent/antigravity_native_interactions.py:382-400 | a run in which neither does, and another gate gets the verdict |
| Bridge.DistinctElicitations | otheros/omnigent/omnigent/antigravity_native_interactions.py:170-196 | if steps never return to waiting and keep their kind, no elicitation id repeats within a run |
| Bridge.SurfacedIncreases | otheros/omnigent/omnigent/antigravity_native_interactions.py:446-472 | if within each trajectory newly waiting steps also have higher indices, the surfaced indices of each trajectory strictly increase |
| Bridge.PayloadFitsTarget | otheros/omnigent/omnigent/antigravity_native_interactions.py:387-404 | the payload's kind is that of the step it goes to, pinned or not |
| Bridge.ReturningStepRepeats | otheros/omnigent/omnigent/antigravity_native_interactions.py:170-196 | a step that returns to waiting can repeat an id |
| CallIds.Allocator.ClaimCallId | otheros/omnigent/omnigent/antigravity_native_steps.py:121-130 | mints the next id and queues it |
| CallIds.Allocator.MatchOutputId | otheros/omnigent/omnigent/antigravity_native_steps.py:132-143 | takes the oldest queued id, or an orphan id |
| CallIds.Allocator.FunctionCallIds | otheros/omnigent/omnigent/antigravity_native_steps.py:697-773 | only emitted calls without an id of their own claim one |
| CallIds.Allocator.FunctionCallOutputId | otheros/omnigent/omnigent/antigravity_native_steps.py:776-807 | a result without an id of its own matches one |
| CallIds.EmittedExactly | otheros/omnigent/omnigent/antigravity_native_steps.py:697-773 | one id for each emitted call, in order: its own, or that of the next number |
| CallIds.CallIdText | otheros/omnigent/omnigent/antigravity_native_steps.py:121-130 | an id is `agy_call_`, the conversation, `_` and the number in digits |
| CallIds.OrphanText | otheros/omnigent/omnigent/antigravity_native_steps.py:132-143 | and that of a result without a call has `_orphan_` before the number |
| CallIds.DecimalIsNumeral | otheros/omnigent/omnigent/antigravity_native_steps.py:121-143 | the digits stand for the number and have no leading zero |
| CallIds.OutputByCounting | otheros/omnigent/omnigent/antigravity_native_steps.py:91-143 | under any interleaving the n-th result that has a call gets the n-th minted id |
| CallIds.AnswersCall | otheros/omnigent/omnigent/antigravity_native_steps.py:98-99 | a result carries a call's id exactly when it takes that call, which came first |
| CallIds.NoIdTwice | otheros/omnigent/omnigent/antigravity_native_steps.py:100-106 | no id goes to two calls or to two results |
| CallIds.NeverOrphan | otheros/omnigent/omnigent/antigravity_native_steps.py:105-143 | call ids and orphan ids never coincide |
| CallIds.PrefixReplays | otheros/omnigent/omnigent/antigravity_native_steps.py:100-103 | replaying the beginning of a run returns the same ids |
| Threads.CollectDescendants | apps/mobile/lib/timeline-thread.ts:63-81 | whenever no chain of replies from the root comes back to an id it has passed, as with unique ids, the queue empties and the result is the bundle of the root |
| Threads.QueueIsUnexpanded | apps/mobile/lib/timeline-thread.ts:69-79 | after any number of turns, with any ids, the queue holds exactly the ids met and not yet expanded, in order |
| Threads.BundleIsSubtree | apps/mobile/lib/timeline-thread.ts:63-81 | a bundle holds exactly the descendants of its root, each once, parents before replies |
| ThreadOrder.BreadthFirst | apps/mobile/lib/timeline-thread.ts:64-78 | replies come in the order of the comments they answer, the root first, and replies to one comment in input order |
| ThreadOrder.DepthsGrow | apps/mobile/lib/timeline-thread.ts:64-78 | depth never decreases along a bundle |
| ThreadOrder.ChronologicalExactly | apps/mobile/lib/timeline-thread.ts:20-23 | a bundle is in input order exactly when replies to earlier comments come earlier |
| ThreadOrder.NestedReplyComesLate | apps/mobile/lib/timeline-thread.ts:64-78 | four comments for which it is not |
| ThreadWalk.WalkEndsExactly | apps/mobile/lib/timeline-thread.ts:69-79 | whatever ids repeat, the queue empties exactly when no chain of replies comes back to an id it has passed |
| ThreadWalk.BundleExactly | apps/mobile/lib/timeline-thread.ts:69-79 | and a comment has a bundle exactly then |
| ThreadWalk.UniqueNeverLoops | apps/mobile/lib/timeline-thread.ts:69-79 | with unique ids no chain from a root does |
| ThreadWalk.UniqueWalksEnd | apps/mobile/lib/timeline-thread.ts:69-79 | so with unique ids every walk ends |
| ThreadWalk.DuplicateIdLoops | apps/mobile/lib/timeline-thread.ts:69-79 | two comments under one id for which the queue never empties |
| ThreadWalk.DuplicateIdsMayEnd | apps/mobile/lib/timeline-thread.ts:69-79 | three comments, two under one id, for which it does |
| ThreadRows.Partition | apps/mobile/lib/timeline-thread.ts:40-61 | the first scan splits entries into top level and replies grouped by parent, in order |
| ThreadRows.BuildTimelineRows | apps/mobile/lib/timeline-thread.ts:37-87 | whenever the walks from the top-level comments end, one row per top-level entry, in order, with its bundle |
| ThreadLinks.RowsExactly | apps/mobile/lib/timeline-thread.ts:37-87 | one row for each activity and each comment without a loaded parent, in input order, and under a comment just the comments that descend from it |
| ThreadLinks.UnderExactly | apps/mobile/lib/timeline-thread.ts:63-81 | descending is answering a loaded comment that is the root or descends from it |
| ThreadRows.ShownOnce | apps/mobile/lib/timeline-thread.ts:37-87 | an entry is shown once per loaded occurrence if its parent chain ends at a top-level entry, and never otherwise |
| ThreadRows.LostOnlyToCycles | apps/mobile/lib/timeline-thread.ts:37-87 | the chain ends at the top exactly when it runs into no cycle |
| ThreadRows.CountsAgree | apps/mobile/lib/timeline-thread.ts:37-87 | the flattened rows are a permutation of the timeline, and as many, exactly when no chain of parents runs into a cycle |
| ThreadRows.CycleIsLost | apps/mobile/lib/timeline-thread.ts:25-27 | two comments that answer each other are not shown |
| Mentions.TokenAtCursor | apps/mobile/lib/mention-serialize.ts:47-79 | finds the token under the cursor, and none only if there is none |
| Mentions.SerializeMentions | apps/mobile/lib/mention-serialize.ts:122-175 | the scan with its cursor and marker index computes the serialization |
| MentionReader.LinkText | apps/mobile/lib/mention-serialize.ts:160-165 | the text of a link for each of the five types; only an issue is shown without `@` |
| MentionReader.ServerReadsMarkers | server/internal/util/mention.go:16-28 | of text whose mentions are linked and that holds no link of its own, the server's pattern reads just the types and ids of the markers, in order |
| MentionLaws.LinkedExactly | apps/mobile/lib/mention-serialize.ts:122-175 | the text is linked exactly when its marked words are, in order, the names of the markers |
| MentionLaws.AllOrNothing | apps/mobile/lib/mention-serialize.ts:170-174 | otherwise every sentinel is removed and nothing is linked |
| MentionLaws.LinksErase | apps/mobile/lib/mention-serialize.ts:16-19 | in linked text, replacing each link by `@name` gives the text without sentinels: no character is lost |
| MentionLaws.RenderConcat | apps/mobile/lib/mention-serialize.ts:122-175 | linked text that ends in white space is rendered independently of what follows |
| MentionLaws.InsertThenSend | apps/mobile/lib/mention-serialize.ts:85-175 | sending text with an inserted mention sends the earlier text's links, the new link, a space and the rest |
| MentionLaws.MentionRoundTrip | apps/mobile/lib/mention-serialize.ts:47-175 | the same from the token under the cursor, and the new cursor stands before the rest |
| MentionLaws.InsertedIsLinked | apps/mobile/lib/mention-serialize.ts:85-175 | among earlier and later mentions, the result is linked exactly when the name has no white space and every later mention has that name |
| MentionLaws.InsertedSends | apps/mobile/lib/mention-serialize.ts:85-175 | then the runs from the insertion on get the later markers first and the new one last |
| MentionLaws.OwnTargetsExactly | apps/mobile/lib/mention-serialize.ts:85-175 | every run gets its own marker exactly when, besides, every later mention is the very one inserted |
| MentionLaws.LinksSwap | apps/mobile/lib/mention-serialize.ts:122-175 | two mentions of one name, each sent as a link to the other |
| MentionLaws.SpacedNeverLinks | apps/mobile/lib/mention-serialize.ts:122-175 | with white space in the name nothing is linked |
| MentionLaws.SpacedName | apps/mobile/lib/mention-serialize.ts:122-175 | one such name |
| Coalesce.CoalesceTimeline | apps/mobile/lib/timeline-coalesce.ts:29-58 | the loop produces one row per segment of joining neighbours, showing the segment's last entry |
| Coalesce.RowsExactly | apps/mobile/lib/timeline-coalesce.ts:29-58 | one row for each segment; an entry continues one exactly if it repeats action and actor of the entry before within two minutes, or at any time for the two task actions, and is no evaluation; the row is its last entry with the count |
| Coalesce.StartOfIsLongest | apps/mobile/lib/timeline-coalesce.ts:29-58 | segments are the longest stretches in which each entry joins the one before |
| Coalesce.CountsAddUp | apps/mobile/lib/timeline-coalesce.ts:48-51 | the counts add up to the incoming ones, less those of counted entries that continue a segment |
| Coalesce.EveryEntryCounted | apps/mobile/lib/timeline-coalesce.ts:48-51 | without incoming counts they add up to the number of entries |
| Coalesce.FixedExactly | apps/mobile/lib/timeline-coalesce.ts:29-58 | coalescing changes nothing exactly when no neighbours join |
| Coalesce.IdempotentExactly | apps/mobile/lib/timeline-coalesce.ts:29-58 | coalescing again changes nothing exactly when no two neighbouring segments have last entries that join |
| Coalesce.CoalescingTwice | apps/mobile/lib/timeline-coalesce.ts:29-58 | so in time order it is idempotent |
| Coalesce.DisorderCoalescesFurther | apps/mobile/lib/timeline-coalesce.ts:42-46 | out of time order two rows can join again |
| Inbox.DeduplicateInboxItems | apps/mobile/lib/inbox-display.ts:72-108 | the grouping, merging and sorting loops compute the list |
| Inbox.OneRowPerKey | apps/mobile/lib/inbox-display.ts:72-108 | exactly one row for each key of an unarchived item and none for others, newest first |
| InboxListing.ListingExactly | apps/mobile/lib/inbox-display.ts:72-108 | one row for each issue of an unarchived item, and each such item without an issue, showing the newest with the comment to go to; newest first, and the one met first on a tie |
| Inbox.RowIsNewest | apps/mobile/lib/inbox-display.ts:82-103 | a row is the newest item of its key, first on a tie, with the newest comment anchor of the key when it has none itself, and nothing else changed |
| Inbox.SortFilter | apps/mobile/lib/inbox-display.ts:82-86 | the sort is stable: it commutes with choosing items |
| Inbox.DeduplicatingTwice | apps/mobile/lib/inbox-display.ts:72-108 | the list of the list is the list |

## Left out

- Direct changes of an item's status through PATCH: they can put any item in any status and keep none of the invariants.
- What runs between the awaits of one scheduler tick: a tick is one step, and routes run between ticks.
- tmux, git, SQL, HTTP and files: whether an agent starts, a worktree is ready or a write succeeds is a parameter.
- Several projects: the scheduler handles each by itself; the model is one project's queue.
- Titles, details, results and parent ids of queue items, the text format of `depends_on` (a set of ids here), and the routes that import todos and tidy text.
- The regular expression engine and Unicode tables: the checkbox pattern is written out, and white space and line boundaries are the characters Python and JavaScript name.  Dafny's characters are Unicode scalars where JavaScript counts UTF-16 units.
- TodoFile.File.AddTodo: the project lookup (404) is not modelled; the error replies are the ones the file decides.
- Classification fields of dead letters that hold fractions, lists or objects: the model has null, true and false, integers and strings.
- The bytes of the dead-letter files: an entry is a parsed record or an opaque line, so the rewriting of a line that is a bare JSON string is not seen.
- A crash between a re-POST and the rewrite of its file: at-most-once is about completed passes.
- AtMostOnce.CommittedAtMostOnce: each live post carries an item of its own; two posts of one message are two items, as in the server.
- Elicitation parameters, payload contents and the keys typed into the terminal; a failed key press is only logged by the bridge.
- Bridge.DistinctElicitations: an elicitation id is the pair of trajectory and step index; that the hash of a pair is not that of another is taken for granted.
- The server keeps one of several mentions of the same target; the pattern it finds them by is modelled.
- The extraction of message texts and tool outputs from agent steps, and results whose call had an id while they have none: the allocator sees only claims and matches.
- Identifiers of entries, comments and inbox items are numbers; a missing and an empty parent are the same.
- Mentions.InsertMention: slicing is modelled for a token within the text, as `tokenAtCursor` returns it; JavaScript would clamp other offsets.
- Unparsable dates in timeline and inbox rows: times are numbers.
- Inbox titles, labels and the other display helpers, which are formatting.
