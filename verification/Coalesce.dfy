/**
  Consecutive identical activities of an issue's timeline are shown as one row with a count.  Task outcomes join
  whatever the time between them; other activities join within two minutes; leader evaluations and comments never do.
*/
module Coalesce {
  import opened Optional

  datatype EntryType = Comment | Activity

  datatype Entry = Entry(
    kind: EntryType,
    id: nat,
    action: Option<string>,
    actorType: string,
    actorId: string,
    createdAt: int,
    count: Option<nat>)

  /** Two minutes. */
  const COALESCE_MS := 2 * 60 * 1000

  predicate NoTimeLimit(action: Option<string>) {
    action == Some("task_completed") || action == Some("task_failed")
  }

  predicate NeverCoalesces(action: Option<string>) {
    action == Some("squad_leader_evaluated")
  }

  function Gap(a: Entry, b: Entry): nat {
    if a.createdAt <= b.createdAt then b.createdAt - a.createdAt else a.createdAt - b.createdAt
  }

  predicate SameActivity(a: Entry, b: Entry) {
    && a.kind == Activity && b.kind == Activity
    && a.action == b.action && a.actorType == b.actorType && a.actorId == b.actorId
  }

  predicate Joins(prev: Entry, entry: Entry) {
    && SameActivity(prev, entry) && !NeverCoalesces(entry.action)
    && (NoTimeLimit(entry.action) || Gap(prev, entry) <= COALESCE_MS)
  }

  function CountOf(e: Entry): nat {
    if e.count.Some? then e.count.value else 1
  }

  // ----- the segments of a timeline -----

  /** Entry `i` continues the segment of the entry before it. */
  predicate Linked(es: seq<Entry>, i: nat)
    requires i < |es|
  {
    i > 0 && Joins(es[i - 1], es[i])
  }

  /** Where the segment of entry `i` starts. */
  function StartOf(es: seq<Entry>, i: nat): (start: nat)
    requires i < |es|
    ensures start <= i
  {
    if Linked(es, i) then StartOf(es, i - 1) else i
  }

  /** A segment is shown by its last entry, counting the others. */
  function Shown(es: seq<Entry>, start: nat, end: nat): Entry
    requires start <= end < |es|
  {
    if start == end then es[end] else es[end].(count := Some(CountOf(es[start]) + (end - start)))
  }

  /** One row per segment of the first `n` entries. */
  function Rows(es: seq<Entry>, n: nat): seq<Entry>
    requires n <= |es|
  {
    if n == 0 then []
    else Rows(es, StartOf(es, n - 1)) + [Shown(es, StartOf(es, n - 1), n - 1)]
  }

  method CoalesceTimeline(entries: seq<Entry>) returns (out: seq<Entry>)
    ensures out == Rows(entries, |entries|)
  {
    out := [];
    for n := 0 to |entries|
      invariant out == Rows(entries, n)
    {
      var entry := entries[n];
      if entry.kind == Activity && out != [] && Joins(out[|out| - 1], entry) {
        out := out[|out| - 1 := entry.(count := Some(CountOf(out[|out| - 1]) + 1))];
        continue;
      }
      out := out + [entry];
    }
  }

  /** The segment that ends at `end` is the longest stretch of linked entries. */
  lemma {:induction false} StartOfIsLongest(es: seq<Entry>, end: nat, start: nat)
    requires start <= end < |es|
    ensures start == StartOf(es, end) <==> !Linked(es, start) && forall i :: start < i <= end ==> Linked(es, i)
    decreases end
  {
    if Linked(es, end) && start < end {
      StartOfIsLongest(es, end - 1, start);
    }
  }

  // ----- the rows, told from the entries alone -----

  /** The same activity by the same actor, soon after, or of an action that may come at any time. */
  predicate Repeats(prev: Entry, next: Entry) {
    && prev.kind == Activity && next.kind == Activity && prev.action == next.action
    && prev.actorType == next.actorType && prev.actorId == next.actorId
    && next.action != Some("squad_leader_evaluated")
    && (next.action == Some("task_completed") || next.action == Some("task_failed") ||
        -120000 <= next.createdAt - prev.createdAt <= 120000)
  }

  /** The places that start a segment: all but those that repeat the one before. */
  ghost predicate AreStarts(es: seq<Entry>, n: nat, starts: seq<nat>)
    requires n <= |es|
  {
    && (forall k :: 0 <= k < |starts| ==> starts[k] < n)
    && (forall j, k :: 0 <= j < k < |starts| ==> starts[j] < starts[k])
    && forall i: nat :: i < n ==> (i in starts <==> i == 0 || !Repeats(es[i - 1], es[i]))
  }

  /** The row of a segment: its last entry, with the count of its first plus one for each that repeats it. */
  predicate IsRowOf(es: seq<Entry>, start: nat, end: nat, row: Entry)
    requires start < end <= |es|
  {
    if start == end - 1 then row == es[start]
    else
      var first := if es[start].count.Some? then es[start].count.value else 1;
      row == es[end - 1].(count := Some(first + end - 1 - start))
  }

  /** Segment k ends before the next, or at n, and has its row. */
  predicate RowAt(es: seq<Entry>, n: nat, starts: seq<nat>, rows: seq<Entry>, k: nat)
    requires n <= |es| && k < |starts|
  {
    var end := if k + 1 < |starts| then starts[k + 1] else n;
    k < |rows| && starts[k] < end <= n && IsRowOf(es, starts[k], end, rows[k])
  }

  /** Main result: one row for each segment, in order. */
  lemma {:induction false} RowsExactly(es: seq<Entry>, n: nat) returns (starts: seq<nat>)
    requires n <= |es|
    ensures AreStarts(es, n, starts) && |Rows(es, n)| == |starts|
    ensures forall k :: 0 <= k < |starts| ==> RowAt(es, n, starts, Rows(es, n), k)
  {
    starts := [];
    if n > 0 {
      var start := StartOf(es, n - 1);
      StartOfIsLongest(es, n - 1, start);
      var front := RowsExactly(es, start);
      starts := front + [start];
      OneMoreSegment(es, n, start, front, starts);
      OneMoreRow(es, n, start, front, Rows(es, start), Rows(es, n));
    }
  }

  lemma OneMoreRow(es: seq<Entry>, n: nat, start: nat, front: seq<nat>, before: seq<Entry>, rows: seq<Entry>)
    requires start < n <= |es| && |front| == |before| && rows == before + [Shown(es, start, n - 1)]
    requires forall k :: 0 <= k < |front| ==> front[k] < start && RowAt(es, start, front, before, k)
    ensures forall k :: 0 <= k <= |front| ==> RowAt(es, n, front + [start], rows, k)
  {
    forall k | 0 <= k < |front| ensures RowAt(es, n, front + [start], rows, k) {
      EarlierRow(es, n, start, front, before, rows, k);
    }
    assert (front + [start])[|front|] == start && rows[|front|] == Shown(es, start, n - 1);
  }

  lemma EarlierRow(es: seq<Entry>, n: nat, start: nat, front: seq<nat>, before: seq<Entry>, rows: seq<Entry>, k: nat)
    requires start < n <= |es| && k < |front| == |before| && RowAt(es, start, front, before, k) && before <= rows
    requires forall j :: 0 <= j < |front| ==> front[j] < start
    ensures RowAt(es, n, front + [start], rows, k)
  {
  }

  lemma OneMoreSegment(es: seq<Entry>, n: nat, start: nat, front: seq<nat>, starts: seq<nat>)
    requires start < n <= |es| && AreStarts(es, start, front) && starts == front + [start]
    requires !Linked(es, start) && forall i :: start < i < n ==> Linked(es, i)
    ensures AreStarts(es, n, starts)
  {
    forall i: nat | i < n ensures i in starts <==> i == 0 || !Repeats(es[i - 1], es[i]) {
      assert i in starts <==> i in front || i == start;
      if i > start { assert Linked(es, i); }
    }
  }

  // ----- counts -----

  function Total(es: seq<Entry>): nat {
    if es == [] then 0 else Total(es[..|es| - 1]) + CountOf(es[|es| - 1])
  }

  lemma TotalPush(es: seq<Entry>, e: Entry)
    ensures Total(es + [e]) == Total(es) + CountOf(e)
  {
    assert (es + [e])[..|es|] == es;
  }

  /** The counts lost by entries that arrive counted and continue a segment. */
  function Dropped(es: seq<Entry>, n: nat): int
    requires n <= |es|
  {
    if n == 0 then 0 else Dropped(es, n - 1) + if Linked(es, n - 1) then CountOf(es[n - 1]) - 1 else 0
  }

  lemma {:induction false} SegmentTotal(es: seq<Entry>, end: nat)
    requires end < |es|
    ensures var start := StartOf(es, end);
      Total(es[..end + 1]) - Dropped(es, end + 1) ==
      Total(es[..start]) - Dropped(es, start) + CountOf(Shown(es, start, end))
  {
    assert es[..end + 1] == es[..end] + [es[end]];
    TotalPush(es[..end], es[end]);
    if Linked(es, end) {
      SegmentTotal(es, end - 1);
    }
  }

  /** Main result: what the counts add up to, whatever counts the entries came with. */
  lemma {:induction false} CountsAddUp(es: seq<Entry>, n: nat)
    requires n <= |es|
    ensures Total(Rows(es, n)) == Total(es[..n]) - Dropped(es, n)
  {
    if n > 0 {
      var start := StartOf(es, n - 1);
      CountsAddUp(es, start);
      SegmentTotal(es, n - 1);
      TotalPush(Rows(es, start), Shown(es, start, n - 1));
    }
  }

  lemma {:induction false} UncountedTotal(es: seq<Entry>, n: nat)
    requires n <= |es| && forall i :: 0 <= i < n ==> es[i].count.None?
    ensures Total(es[..n]) == n && Dropped(es, n) == 0
  {
    if n > 0 {
      UncountedTotal(es, n - 1);
      assert es[..n] == es[..n - 1] + [es[n - 1]];
      TotalPush(es[..n - 1], es[n - 1]);
    }
  }

  /** Main result: when no entry comes counted, every entry is counted by exactly one row. */
  lemma EveryEntryCounted(es: seq<Entry>)
    requires forall i :: 0 <= i < |es| ==> es[i].count.None?
    ensures Total(Rows(es, |es|)) == |es|
  {
    CountsAddUp(es, |es|);
    UncountedTotal(es, |es|);
  }

  // ----- coalescing twice -----

  /** No two neighbours join. */
  predicate Apart(es: seq<Entry>) {
    forall i :: 0 <= i < |es| ==> !Linked(es, i)
  }

  lemma {:induction false} ApartIsFixed(es: seq<Entry>, n: nat)
    requires n <= |es| && Apart(es)
    ensures Rows(es, n) == es[..n]
  {
    if n > 0 {
      ApartIsFixed(es, n - 1);
      assert !Linked(es, n - 1);
    }
  }

  lemma {:induction false} ShorterIfLinked(es: seq<Entry>, n: nat)
    requires n <= |es|
    ensures |Rows(es, n)| <= n
    ensures (exists i :: 0 <= i < n && Linked(es, i)) ==> |Rows(es, n)| < n
  {
    if n > 0 {
      var start := StartOf(es, n - 1);
      ShorterIfLinked(es, start);
      if start == n - 1 && exists i :: 0 <= i < n && Linked(es, i) {
        var i :| 0 <= i < n && Linked(es, i);
        assert i < start;
      }
    }
  }

  /** Coalescing changes nothing exactly when no two neighbours join. */
  lemma FixedExactly(es: seq<Entry>)
    ensures Rows(es, |es|) == es <==> Apart(es)
  {
    if Apart(es) {
      ApartIsFixed(es, |es|);
      assert es[..|es|] == es;
    } else {
      ShorterIfLinked(es, |es|);
    }
  }

  predicate InTimeOrder(es: seq<Entry>) {
    forall i, j :: 0 <= i <= j < |es| ==> es[i].createdAt <= es[j].createdAt
  }

  lemma {:induction false} SameThroughout(es: seq<Entry>, end: nat)
    requires end < |es|
    ensures StartOf(es, end) == end || SameActivity(es[StartOf(es, end)], es[end])
    ensures !Linked(es, StartOf(es, end))
  {
    if Linked(es, end) {
      SameThroughout(es, end - 1);
    }
  }

  /** Of the first `n` entries, `j` is the last of a segment. */
  predicate EndsSegment(es: seq<Entry>, n: nat, j: nat)
    requires j < n <= |es|
  {
    j == n - 1 || !Linked(es, j + 1)
  }

  /** The last entry of the segment before joins the last entry of this one. */
  predicate JoinsAcross(es: seq<Entry>, j: nat)
    requires j < |es|
  {
    var start := StartOf(es, j);
    start > 0 && Joins(es[start - 1], es[j])
  }

  /** No two neighbouring segments of the first `n` entries have last entries that join. */
  ghost predicate SegmentsApart(es: seq<Entry>, n: nat)
    requires n <= |es|
  {
    forall j :: 0 <= j < n && EndsSegment(es, n, j) ==> !JoinsAcross(es, j)
  }

  /** Inside the last segment nothing ends; before it, what ends does so in the entries before it. */
  lemma LastSegment(es: seq<Entry>, n: nat)
    requires 0 < n <= |es|
    ensures var start := StartOf(es, n - 1);
      && (forall j :: 0 <= j < start ==> (EndsSegment(es, n, j) <==> EndsSegment(es, start, j)))
      && forall j :: start <= j < n - 1 ==> !EndsSegment(es, n, j)
  {
    var start := StartOf(es, n - 1);
    StartOfIsLongest(es, n - 1, start);
    forall j | start <= j < n - 1 ensures !EndsSegment(es, n, j) {
      assert Linked(es, j + 1);
    }
  }

  lemma {:induction false} RowsApartExactly(es: seq<Entry>, n: nat)
    requires n <= |es|
    ensures Apart(Rows(es, n)) <==> SegmentsApart(es, n)
  {
    if n > 0 {
      var start := StartOf(es, n - 1);
      RowsApartExactly(es, start);
      LastSegment(es, n);
      LastRow(es, start, n);
      assert SegmentsApart(es, n) <==> SegmentsApart(es, start) && !JoinsAcross(es, n - 1);
    }
  }

  /** The last row joins the one before exactly when the last entries of the two segments do. */
  lemma LastRow(es: seq<Entry>, start: nat, n: nat)
    requires 0 < n <= |es| && start == StartOf(es, n - 1)
    ensures Apart(Rows(es, n)) <==> Apart(Rows(es, start)) && !JoinsAcross(es, n - 1)
  {
    var before, rows := Rows(es, start), Rows(es, n);
    forall i | 0 <= i < |before| ensures Linked(rows, i) <==> Linked(before, i) {
    }
    assert Linked(rows, |before|) <==> JoinsAcross(es, n - 1);
  }

  /** Main result: coalescing again changes nothing exactly when no two neighbouring segments have last entries that
      join. */
  lemma IdempotentExactly(es: seq<Entry>)
    ensures var out := Rows(es, |es|);
      Rows(out, |out|) == out <==> forall j :: 0 <= j < |es| && EndsSegment(es, |es|, j) ==> !JoinsAcross(es, j)
  {
    FixedExactly(Rows(es, |es|));
    RowsApartExactly(es, |es|);
  }

  /** On a timeline in time order they never do. */
  lemma CoalescingTwice(es: seq<Entry>)
    requires InTimeOrder(es)
    ensures var out := Rows(es, |es|); Rows(out, |out|) == out
  {
    forall j | 0 <= j < |es| && EndsSegment(es, |es|, j) ensures !JoinsAcross(es, j) {
      var start := StartOf(es, j);
      SameThroughout(es, j);
      if start > 0 {
        assert es[start - 1].createdAt <= es[start].createdAt <= es[j].createdAt;
      }
    }
    IdempotentExactly(es);
  }

  /** Out of time order it can: one activity at 0, 3 and 1.5 minutes becomes two rows, which then join. */
  lemma DisorderCoalescesFurther() returns (es: seq<Entry>)
    ensures var out := Rows(es, |es|); Rows(out, |out|) != out
  {
    var e := Entry(Activity, 0, Some("status_changed"), "member", "m", 0, None);
    es := [e, e.(createdAt := 180000), e.(createdAt := 90000)];
    assert Linked(es, 2) && !Linked(es, 1) && StartOf(es, 2) == StartOf(es, 1) == 1;
    assert Rows(es, 1) == [e];
    var out := Rows(es, 3);
    assert out == [e, e.(createdAt := 90000, count := Some(2))];
    assert Linked(out, 1);
    FixedExactly(out);
  }
}
