/** The dead-letter files and their replay at startup. */
module DeadLetters {
  import opened Optional
  import opened Sequences
  import opened Delivery

  /** A field of a record as JSON gives it: null, true or false, an integer, a string. */
  datatype Field = Null | Flag(b: bool) | Number(n: int) | Text(s: string)

  /** A parsed record.  A session or event type that is no string is None, and so is a payload that is no object; `item`
      stands for the payload posted.  `ambiguous` is None when the field is absent; an absent status reads as null. */
  datatype Record = Record(
    session: Option<string>,
    eventType: Option<string>,
    item: Option<nat>,
    ambiguous: Option<Field>,
    status: Field,
    reason: string)

  /** A line of a file: a record, or a line that did not parse to one and is kept as it is. */
  datatype Entry = Parsed(record: Record) | Unparsed(line: string)

  const CONVERSATION_ITEM := "external_conversation_item"

  /** Python's truth value. */
  predicate Truthy(f: Field) {
    match f
    case Null => false
    case Flag(b) => b
    case Number(n) => n != 0
    case Text(s) => s != ""
  }

  /** Python's `==`: True is 1 and False is 0. */
  predicate Same(f: Field, g: Field) {
    f == g || (IntOf(f).Some? && IntOf(f) == IntOf(g))
  }

  function IntOf(f: Field): Option<int> {
    match f
    case Flag(b) => Some(if b then 1 else 0)
    case Number(n) => Some(n)
    case _ => None
  }

  predicate Replayable(e: Entry, codes: set<int>) {
    && e.Parsed?
    && e.record.session.Some? && e.record.session.value != ""
    && e.record.eventType.Some? && e.record.eventType.value != ""
    && e.record.item.Some?
    && e.record.ambiguous.Some? && !Truthy(e.record.ambiguous.value)
    && (e.record.status.Null? || (IntOf(e.record.status).Some? && IntOf(e.record.status).value in codes))
  }

  predicate IsItem(e: Entry) {
    e.Parsed? && e.record.eventType == Some(CONVERSATION_ITEM)
  }

  /** The outcome of one re-POST, as the forwarder reports it: a single attempt, never retried. */
  datatype RepostResult = RepostResult(delivered: bool, ambiguous: bool, status: Option<int>)

  function Repost(e: Entry, o: Outcome): RepostResult {
    match o
    case Responded(status) => RepostResult(status < 400, false, if status < 400 then None else Some(status))
    case Raised(_) => RepostResult(false, IsItem(e) && MayHaveBeenDelivered(o), None)
  }

  function StatusField(status: Option<int>): Field {
    if status.Some? then Number(status.value) else Null
  }

  /** The classification on record is already that of the re-POST. */
  predicate UpToDate(e: Entry, r: RepostResult)
    requires e.Parsed?
  {
    && Same(if e.record.ambiguous.Some? then e.record.ambiguous.value else Null, Flag(r.ambiguous))
    && Same(e.record.status, StatusField(r.status))
  }

  /** The record kept after a failed re-POST, its classification refreshed. */
  function Refresh(e: Entry, r: RepostResult): Entry
    requires e.Parsed?
  {
    if UpToDate(e, r) then e
    else Parsed(e.record.(ambiguous := Some(Flag(r.ambiguous)), status := StatusField(r.status)))
  }

  /** What one re-POST leaves of a record. */
  function KeptOf(e: Entry, o: Outcome): (kept: seq<Entry>)
    requires e.Parsed?
    ensures |kept| <= 1
  {
    if Repost(e, o).delivered then [] else [Refresh(e, Repost(e, o))]
  }

  // ----- one pass -----

  /** What a pass over some entries leaves: the entries kept, the attempts used, how many were delivered. */
  datatype Pass = Pass(kept: seq<Entry>, used: nat, delivered: nat)

  /** The pass, entry by entry; `limit` is how many re-POSTs the budget still allows. */
  function Drain(entries: seq<Entry>, codes: set<int>, net: seq<Attempt>, limit: nat): Pass
    requires limit <= |net|
  {
    if entries == [] then Pass([], 0, 0)
    else
      var e := entries[0];
      if !Replayable(e, codes) || limit == 0 then
        var p := Drain(entries[1..], codes, net, limit);
        p.(kept := [e] + p.kept)
      else
        var r := Repost(e, net[0].outcome);
        var p := Drain(entries[1..], codes, net[1..], limit - 1);
        if r.delivered then p.(used := p.used + 1, delivered := p.delivered + 1)
        else p.(kept := [Refresh(e, r)] + p.kept, used := p.used + 1)
  }

  // ----- the same pass described by position -----

  function CountReplayable(entries: seq<Entry>, codes: set<int>): nat {
    if entries == [] then 0 else (if Replayable(entries[0], codes) then 1 else 0) + CountReplayable(entries[1..], codes)
  }

  datatype Fate = Untouched | Refreshed(result: RepostResult) | Delivered

  /** The j-th entry is tried iff it is replayable and fewer than `limit` replayable entries come before it. */
  function FateOf(entries: seq<Entry>, codes: set<int>, net: seq<Attempt>, limit: nat, j: nat): (f: Fate)
    requires j < |entries| && limit <= |net|
    ensures f.Refreshed? ==> entries[j].Parsed?
  {
    var rank := CountReplayable(entries[..j], codes);
    if !Replayable(entries[j], codes) || rank >= limit then Untouched
    else
      var r := Repost(entries[j], net[rank].outcome);
      if r.delivered then Delivered else Refreshed(r)
  }

  /** Entries kept when each of the first n meets its fate: delivered ones gone, the others in place. */
  function Survivors(entries: seq<Entry>, codes: set<int>, net: seq<Attempt>, limit: nat, n: nat): seq<Entry>
    requires n <= |entries| && limit <= |net|
  {
    if n == 0 then []
    else
      var front := Survivors(entries, codes, net, limit, n - 1);
      var e := entries[n - 1];
      match FateOf(entries, codes, net, limit, n - 1)
      case Delivered => front
      case Refreshed(r) => front + [Refresh(e, r)]
      case Untouched => front + [e]
  }

  function Min(a: nat, b: nat): nat {
    if a <= b then a else b
  }

  lemma {:induction false} CountConcat(a: seq<Entry>, b: seq<Entry>, codes: set<int>)
    ensures CountReplayable(a + b, codes) == CountReplayable(a, codes) + CountReplayable(b, codes)
  {
    if a == [] {
      assert a + b == b;
    } else {
      assert (a + b)[1..] == a[1..] + b;
      CountConcat(a[1..], b, codes);
    }
  }

  lemma {:induction false} DrainCounts(entries: seq<Entry>, codes: set<int>, net: seq<Attempt>, limit: nat)
    requires limit <= |net|
    ensures var p := Drain(entries, codes, net, limit);
      p.used == Min(CountReplayable(entries, codes), limit) && p.delivered <= p.used &&
      |p.kept| + p.delivered == |entries|
  {
    if entries != [] {
      if Replayable(entries[0], codes) && limit > 0 {
        DrainCounts(entries[1..], codes, net[1..], limit - 1);
      } else {
        DrainCounts(entries[1..], codes, net, limit);
      }
    }
  }

  /** Draining two lists one after the other is draining them as one, with what is left of the budget. */
  lemma DrainConcat(a: seq<Entry>, b: seq<Entry>, codes: set<int>, net: seq<Attempt>, limit: nat)
    requires limit <= |net|
    ensures var p := Drain(a, codes, net, limit);
      p.used <= limit &&
      var q := Drain(b, codes, net[p.used..], limit - p.used);
      Drain(a + b, codes, net, limit) == Pass(p.kept + q.kept, p.used + q.used, p.delivered + q.delivered)
  {
    DrainCounts(a, codes, net, limit);
    var p := Drain(a, codes, net, limit);
    DrainAppend(a, b, codes, net, limit, p, Drain(b, codes, net[p.used..], limit - p.used));
  }

  lemma {:induction false} DrainAppend(a: seq<Entry>, b: seq<Entry>, codes: set<int>, net: seq<Attempt>, limit: nat,
                                       p: Pass, q: Pass)
    requires limit <= |net| && p == Drain(a, codes, net, limit) && p.used <= limit
    requires q == Drain(b, codes, net[p.used..], limit - p.used)
    ensures Drain(a + b, codes, net, limit) == Pass(p.kept + q.kept, p.used + q.used, p.delivered + q.delivered)
  {
    if a == [] {
      assert a + b == b && net[0..] == net;
    } else {
      var e, rest := a[0], a[1..];
      assert a == [e] + rest && a + b == [e] + (rest + b);
      if Replayable(e, codes) && limit > 0 {
        var p' := Drain(rest, codes, net[1..], limit - 1);
        assert net[1..][p'.used..] == net[p.used..];
        DrainAppend(rest, b, codes, net[1..], limit - 1, p', q);
        TriedFirst(e, rest, b, codes, net, limit, p', q);
      } else {
        var p' := Drain(rest, codes, net, limit);
        DrainAppend(rest, b, codes, net, limit, p', q);
        PassedFirst(e, rest, b, codes, net, limit, p', q);
      }
    }
  }

  lemma PassedFirst(e: Entry, rest: seq<Entry>, b: seq<Entry>, codes: set<int>, net: seq<Attempt>, limit: nat,
                    p: Pass, q: Pass)
    requires limit <= |net| && !(Replayable(e, codes) && limit > 0) && p == Drain(rest, codes, net, limit)
    requires Drain(rest + b, codes, net, limit) == Pass(p.kept + q.kept, p.used + q.used, p.delivered + q.delivered)
    ensures var p' := Drain([e] + rest, codes, net, limit);
      && p'.used == p.used
      && Drain([e] + (rest + b), codes, net, limit) ==
         Pass(p'.kept + q.kept, p'.used + q.used, p'.delivered + q.delivered)
  {
    assert ([e] + rest)[1..] == rest && ([e] + (rest + b))[1..] == rest + b;
    Regroup([e], p.kept, q.kept);
  }

  lemma TriedFirst(e: Entry, rest: seq<Entry>, b: seq<Entry>, codes: set<int>, net: seq<Attempt>, limit: nat, p: Pass,
                   q: Pass)
    requires 0 < limit <= |net| && Replayable(e, codes) && p == Drain(rest, codes, net[1..], limit - 1)
    requires Drain(rest + b, codes, net[1..], limit - 1) ==
             Pass(p.kept + q.kept, p.used + q.used, p.delivered + q.delivered)
    ensures var p' := Drain([e] + rest, codes, net, limit);
      && p'.used == p.used + 1
      && Drain([e] + (rest + b), codes, net, limit) ==
         Pass(p'.kept + q.kept, p'.used + q.used, p'.delivered + q.delivered)
  {
    assert ([e] + rest)[1..] == rest && ([e] + (rest + b))[1..] == rest + b;
    Regroup([Refresh(e, Repost(e, net[0].outcome))], p.kept, q.kept);
  }

  /** Main result: conservation and budget.  The pass keeps, in order, everything but the delivered records, and
      tries exactly the first `limit` replayable ones. */
  lemma {:induction false} DrainIsSurvivors(entries: seq<Entry>, codes: set<int>, net: seq<Attempt>, limit: nat)
    requires limit <= |net|
    ensures Drain(entries, codes, net, limit).kept == Survivors(entries, codes, net, limit, |entries|)
    decreases |entries|
  {
    if entries != [] {
      var n := |entries| - 1;
      var front, last := entries[..n], entries[n..];
      assert entries == front + last;
      DrainConcat(front, last, codes, net, limit);
      DrainCounts(front, codes, net, limit);
      DrainIsSurvivors(front, codes, net, limit);
      SurvivorsPrefix(entries, codes, net, limit, n);
      var p := Drain(front, codes, net, limit);
      assert last[1..] == [];
      assert p.used == Min(CountReplayable(front, codes), limit);
    }
  }

  lemma {:induction false} SurvivorsPrefix(entries: seq<Entry>, codes: set<int>, net: seq<Attempt>, limit: nat, n: nat)
    requires n < |entries| && limit <= |net|
    ensures forall m :: 0 <= m <= n ==>
            Survivors(entries, codes, net, limit, m) == Survivors(entries[..n], codes, net, limit, m)
  {
    for m := 0 to n
      invariant forall i :: 0 <= i <= m ==>
                Survivors(entries, codes, net, limit, i) == Survivors(entries[..n], codes, net, limit, i)
    {
      assert entries[..n][..m] == entries[..m];
      assert FateOf(entries, codes, net, limit, m) == FateOf(entries[..n], codes, net, limit, m);
    }
  }

  // ----- the files -----

  function Entries(file: Option<seq<Entry>>): seq<Entry> {
    if file.Some? then file.value else []
  }

  /** A rewrite that leaves nothing removes the file. */
  function Rewritten(kept: seq<Entry>): Option<seq<Entry>> {
    if kept == [] then None else Some(kept)
  }

  lemma RewrittenEntries(kept: seq<Entry>)
    ensures Entries(Rewritten(kept)) == kept
  {
  }

  /** After `k` re-POSTs the budget is spent; the clock is read before each one. */
  predicate Spent(maxRecords: Option<nat>, deadline: Option<int>, clock: nat -> int, k: nat) {
    (maxRecords.Some? && k >= maxRecords.value) || (deadline.Some? && clock(k) >= deadline.value)
  }

  /** How many re-POSTs the budget allows, from `k` on, of at most `ceiling`. */
  function Budget(maxRecords: Option<nat>, deadline: Option<int>, clock: nat -> int, k: nat, ceiling: nat): (n: nat)
    requires k <= ceiling
    ensures k <= n <= ceiling && (n < ceiling ==> Spent(maxRecords, deadline, clock, n))
    decreases ceiling - k
  {
    if k == ceiling || Spent(maxRecords, deadline, clock, k) then k
    else Budget(maxRecords, deadline, clock, k + 1, ceiling)
  }

  /** It is the first number of re-POSTs after which the budget is spent. */
  lemma {:induction false} BudgetIsFirst(maxRecords: Option<nat>, deadline: Option<int>, clock: nat -> int, k: nat,
                                         ceiling: nat, j: nat)
    requires k <= ceiling && k <= j < Budget(maxRecords, deadline, clock, k, ceiling)
    ensures !Spent(maxRecords, deadline, clock, j)
    decreases ceiling - k
  {
    if k < j {
      BudgetIsFirst(maxRecords, deadline, clock, k + 1, ceiling, j);
    }
  }

  /** A file is rewritten only if an entry changed or left. */
  method WriteBack(file: Option<seq<Entry>>, kept: seq<Entry>, changed: bool) returns (written: Option<seq<Entry>>)
    requires !changed ==> kept == Entries(file)
    ensures Entries(written) == kept && (!changed ==> written == file)
  {
    RewrittenEntries(kept);
    written := if changed then Rewritten(kept) else file;
  }

  /** Where appending a record fails, if it does: before the files are rotated, or after. */
  datatype Fault = NoFault | EarlyFault | LateFault

  class BridgeDir {
    var backup: Option<seq<Entry>>
    var current: Option<seq<Entry>>

    constructor ()
      ensures backup == None && current == None
    {
      backup, current := None, None;
    }

    /** Everything on disk, oldest first. */
    function OnDisk(): seq<Entry>
      reads this
    {
      Entries(backup) + Entries(current)
    }

    /** Appends one record; at the size cap the file first becomes the backup.  A fault before that changes nothing;
        one after it loses the record, and with it the old backup. */
    method AppendDeadLetter(record: Record, atCap: bool, fault: Fault)
      modifies this
      ensures var rotated := atCap && old(current).Some? && fault != EarlyFault;
        && backup == (if rotated then old(current) else old(backup))
        && Entries(current) ==
           (if rotated then [] else Entries(old(current))) + (if fault == NoFault then [Parsed(record)] else [])
      ensures var dropped := if atCap && old(current).Some? && fault != EarlyFault then |Entries(old(backup))| else 0;
        OnDisk() == old(OnDisk())[dropped..] + (if fault == NoFault then [Parsed(record)] else [])
    {
      if fault == EarlyFault {
        return;
      }
      if current.Some? && atCap {
        backup := current;
        current := None;
      }
      if fault == LateFault {
        return;
      }
      assert [] + [Parsed(record)] == [Parsed(record)];
      current := Some(Entries(current) + [Parsed(record)]);
    }

    /** One entry: re-POSTed if it is replayable and the budget is not spent, else kept as it is. */
    method DrainEntry(entry: Entry, codes: set<int>, net: seq<Attempt>, maxRecords: Option<nat>, deadline: Option<int>,
                      clock: nat -> int, attempted: nat, stopped: bool, ghost limit: nat)
      returns (kept: seq<Entry>, tried: bool, altered: bool, stop: bool)
      requires attempted <= limit && (stopped ==> attempted == limit)
      requires Replayable(entry, codes) ==>
                 attempted < |net| && (Spent(maxRecords, deadline, clock, attempted) <==> attempted == limit)
      ensures tried <==> Replayable(entry, codes) && attempted < limit
      ensures stop <==> stopped || (Replayable(entry, codes) && attempted == limit)
      ensures kept == if tried then KeptOf(entry, net[attempted].outcome) else [entry]
      ensures (!altered ==> kept == [entry]) && (altered ==> tried)
    {
      kept, tried, altered, stop := [entry], false, false, stopped;
      if !Replayable(entry, codes) || stop {
        return;
      }
      if Spent(maxRecords, deadline, clock, attempted) {
        stop := true;
        return;
      }
      tried := true;
      var r := Repost(entry, net[attempted].outcome);
      if r.delivered {
        kept, altered := [], true;
      } else if !UpToDate(entry, r) {
        kept, altered := [Refresh(entry, r)], true;
      }
    }

    /** One file's share of a pass; `limit` is what the budget comes to. */
    method DrainFile(entries: seq<Entry>, codes: set<int>, net: seq<Attempt>, maxRecords: Option<nat>,
                     deadline: Option<int>, clock: nat -> int, tried: nat, stopped: bool, ghost limit: nat)
      returns (retained: seq<Entry>, attempted: nat, replayed: nat, changed: bool, stop: bool)
      requires limit == Budget(maxRecords, deadline, clock, 0, |net|) && (stopped ==> tried == limit)
      requires tried <= limit && tried + CountReplayable(entries, codes) <= |net|
      ensures tried <= attempted <= limit && (stop ==> attempted == limit)
      ensures attempted <= tried + CountReplayable(entries, codes)
      ensures Drain(entries, codes, net[tried..], limit - tried) == Pass(retained, attempted - tried, replayed)
      ensures !changed ==> retained == entries
      ensures attempted == tried ==> !changed
    {
      retained, attempted, replayed, changed, stop := [], tried, 0, false, stopped;
      for k := 0 to |entries|
        invariant tried <= attempted <= limit && (stop ==> attempted == limit)
        invariant (!changed ==> retained == entries[..k]) && (attempted == tried ==> !changed)
        invariant DrainUpTo(entries, codes, net, limit, tried, k) == Pass(retained, attempted - tried, replayed)
      {
        RoomLeft(entries, codes, net, maxRecords, deadline, clock, limit, tried, k);
        var kept, one, altered;
        kept, one, altered, stop :=
          DrainEntry(entries[k], codes, net, maxRecords, deadline, clock, attempted, stop, limit);
        UpToNext(entries, codes, net, limit, tried, k, kept, one);
        if !changed && !altered { NextSlice(retained, retained + kept, entries, k + 1); }
        retained, changed := retained + kept, changed || altered;
        attempted, replayed := attempted + (if one then 1 else 0), replayed + 1 - |kept|;
      }
      WholeFile(entries, codes, net, limit, tried);
    }

    /** Both files in turn, the second with what the first left of the budget. */
    method DrainBoth(older: seq<Entry>, newer: seq<Entry>, codes: set<int>, net: seq<Attempt>, maxRecords: Option<nat>,
                     deadline: Option<int>, clock: nat -> int, ghost limit: nat)
      returns (kept: seq<Entry>, kept2: seq<Entry>, replayed: nat, attempted: nat, changed: bool, changed2: bool)
      requires limit == Budget(maxRecords, deadline, clock, 0, |net|)
      requires CountReplayable(older, codes) + CountReplayable(newer, codes) <= |net|
      ensures attempted <= limit && Drain(older + newer, codes, net, limit) == Pass(kept + kept2, attempted, replayed)
      ensures (!changed ==> kept == older) && (!changed2 ==> kept2 == newer)
      ensures attempted == 0 ==> !changed && !changed2
    {
      var tried, first, second, stop;
      kept, tried, first, changed, stop := DrainFile(older, codes, net, maxRecords, deadline, clock, 0, false, limit);
      kept2, attempted, second, changed2, stop :=
        DrainFile(newer, codes, net, maxRecords, deadline, clock, tried, stop, limit);
      TwoFiles(older, newer, codes, net, limit, Pass(kept, tried, first), Pass(kept2, attempted - tried, second));
      replayed := first + second;
    }

    /** Startup replay: the backup first, then the current file, within the budget. */
    method ReplayDeadLetters(codes: set<int>, net: seq<Attempt>, maxRecords: Option<nat>, deadline: Option<int>,
                             clock: nat -> int)
      returns (replayed: nat, attempted: nat)
      requires |net| >= CountReplayable(OnDisk(), codes)
      modifies this
      ensures var p := Drain(old(OnDisk()), codes, net, Budget(maxRecords, deadline, clock, 0, |net|));
        OnDisk() == p.kept && replayed == p.delivered && attempted == p.used
      ensures maxRecords.Some? ==> attempted <= maxRecords.value
      ensures deadline.Some? ==> forall k: nat :: k < attempted ==> clock(k) < deadline.value
      ensures attempted == 0 ==> backup == old(backup) && current == old(current)
    {
      ghost var limit := Budget(maxRecords, deadline, clock, 0, |net|);
      var older, newer := Entries(backup), Entries(current);
      WithinBudget(maxRecords, deadline, clock, |net|);
      CountConcat(older, newer, codes);
      if CountReplayable(older, codes) == 0 && CountReplayable(newer, codes) == 0 {
        NothingReplayable(older + newer, codes, net, limit);
        return 0, 0;
      }
      var kept, kept2, changed, changed2;
      kept, kept2, replayed, attempted, changed, changed2 :=
        DrainBoth(older, newer, codes, net, maxRecords, deadline, clock, limit);
      backup := WriteBack(backup, kept, changed);
      current := WriteBack(current, kept2, changed2);
    }
  }

  /** No re-POST within the budget is one too many, or too late. */
  lemma WithinBudget(maxRecords: Option<nat>, deadline: Option<int>, clock: nat -> int, ceiling: nat)
    ensures var limit := Budget(maxRecords, deadline, clock, 0, ceiling);
      && (maxRecords.Some? ==> limit <= maxRecords.value)
      && (deadline.Some? ==> forall k: nat :: k < limit ==> clock(k) < deadline.value)
  {
    forall k: nat | k < Budget(maxRecords, deadline, clock, 0, ceiling)
      ensures !Spent(maxRecords, deadline, clock, k) && (deadline.Some? ==> clock(k) < deadline.value)
    {
      BudgetIsFirst(maxRecords, deadline, clock, 0, ceiling, k);
    }
    if maxRecords.Some? && Budget(maxRecords, deadline, clock, 0, ceiling) > maxRecords.value {
      assert Spent(maxRecords, deadline, clock, maxRecords.value);
    }
  }

  /** Short of the ceiling, the budget is spent exactly when the limit is reached. */
  lemma SpentAtLimit(maxRecords: Option<nat>, deadline: Option<int>, clock: nat -> int, ceiling: nat, k: nat)
    requires k <= Budget(maxRecords, deadline, clock, 0, ceiling) && k < ceiling
    ensures Spent(maxRecords, deadline, clock, k) <==> k == Budget(maxRecords, deadline, clock, 0, ceiling)
  {
    if k < Budget(maxRecords, deadline, clock, 0, ceiling) {
      BudgetIsFirst(maxRecords, deadline, clock, 0, ceiling, k);
    }
  }

  /** What the first `k` entries of a file come to, entry by entry. */
  function DrainUpTo(entries: seq<Entry>, codes: set<int>, net: seq<Attempt>, limit: nat, tried: nat, k: nat): (p: Pass)
    requires k <= |entries| && tried <= limit <= |net|
    ensures tried + p.used <= limit
  {
    if k == 0 then Pass([], 0, 0)
    else
      var p := DrainUpTo(entries, codes, net, limit, tried, k - 1);
      if Replayable(entries[k - 1], codes) && tried + p.used < limit then
        var kept := KeptOf(entries[k - 1], net[tried + p.used].outcome);
        Pass(p.kept + kept, p.used + 1, p.delivered + 1 - |kept|)
      else
        p.(kept := p.kept + [entries[k - 1]])
  }

  lemma UpToNext(entries: seq<Entry>, codes: set<int>, net: seq<Attempt>, limit: nat, tried: nat, k: nat,
                 kept: seq<Entry>, one: bool)
    requires k < |entries| && tried <= limit <= |net|
    requires var at := tried + DrainUpTo(entries, codes, net, limit, tried, k).used;
      && (one <==> Replayable(entries[k], codes) && at < limit)
      && kept == if one then KeptOf(entries[k], net[at].outcome) else [entries[k]]
    ensures var p := DrainUpTo(entries, codes, net, limit, tried, k);
      DrainUpTo(entries, codes, net, limit, tried, k + 1) ==
      Pass(p.kept + kept, p.used + (if one then 1 else 0), p.delivered + 1 - |kept|)
  {
  }

  lemma WholeFile(entries: seq<Entry>, codes: set<int>, net: seq<Attempt>, limit: nat, tried: nat)
    requires tried <= limit <= |net|
    ensures DrainUpTo(entries, codes, net, limit, tried, |entries|) ==
            Drain(entries, codes, net[tried..], limit - tried)
    ensures DrainUpTo(entries, codes, net, limit, tried, |entries|).used <= CountReplayable(entries, codes)
  {
    DrainedUpTo(entries, codes, net, limit, tried, |entries|);
    assert entries[..|entries|] == entries;
    DrainCounts(entries, codes, net[tried..], limit - tried);
  }

  lemma {:induction false} DrainedUpTo(entries: seq<Entry>, codes: set<int>, net: seq<Attempt>, limit: nat,
                                       tried: nat, k: nat)
    requires k <= |entries| && tried <= limit <= |net|
    ensures DrainUpTo(entries, codes, net, limit, tried, k) == Drain(entries[..k], codes, net[tried..], limit - tried)
  {
    if k > 0 {
      DrainedUpTo(entries, codes, net, limit, tried, k - 1);
      DrainOneMore(entries, codes, net[tried..], limit - tried, k - 1);
      var p := DrainUpTo(entries, codes, net, limit, tried, k - 1);
      assert p.kept + [] == p.kept;
      if tried + p.used < limit {
        assert net[tried..][p.used] == net[tried + p.used];
      }
    }
  }

  /** Before a replayable entry there is an outcome left on the network, and the budget is spent at the limit. */
  lemma RoomLeft(entries: seq<Entry>, codes: set<int>, net: seq<Attempt>, maxRecords: Option<nat>,
                 deadline: Option<int>, clock: nat -> int, limit: nat, tried: nat, k: nat)
    requires limit == Budget(maxRecords, deadline, clock, 0, |net|) && k < |entries| && tried <= limit
    requires tried + CountReplayable(entries, codes) <= |net|
    ensures var at := tried + DrainUpTo(entries, codes, net, limit, tried, k).used;
      Replayable(entries[k], codes) ==> at < |net| && (Spent(maxRecords, deadline, clock, at) <==> at == limit)
  {
    if Replayable(entries[k], codes) {
      DrainedUpTo(entries, codes, net, limit, tried, k);
      DrainCounts(entries[..k], codes, net[tried..], limit - tried);
      CountNext(entries, codes, k);
      SpentAtLimit(maxRecords, deadline, clock, |net|, tried + DrainUpTo(entries, codes, net, limit, tried, k).used);
    }
  }

  lemma CountNext(entries: seq<Entry>, codes: set<int>, k: nat)
    requires k < |entries|
    ensures CountReplayable(entries[..k + 1], codes) ==
            CountReplayable(entries[..k], codes) + if Replayable(entries[k], codes) then 1 else 0
    ensures CountReplayable(entries[..k + 1], codes) <= CountReplayable(entries, codes)
  {
    var one := [entries[k]];
    assert entries[..k + 1] == entries[..k] + one && one[1..] == [];
    CountConcat(entries[..k], one, codes);
    assert entries == entries[..k + 1] + entries[k + 1..];
    CountConcat(entries[..k + 1], entries[k + 1..], codes);
  }

  lemma NothingReplayable(entries: seq<Entry>, codes: set<int>, net: seq<Attempt>, limit: nat)
    requires limit <= |net| && CountReplayable(entries, codes) == 0
    ensures Drain(entries, codes, net, limit) == Pass(entries, 0, 0)
  {
    DrainCounts(entries, codes, net, limit);
    DrainUntouched(entries, codes, net, limit);
  }

  lemma TwoFiles(older: seq<Entry>, newer: seq<Entry>, codes: set<int>, net: seq<Attempt>, limit: nat, p: Pass, q: Pass)
    requires limit <= |net| && p.used <= limit
    requires p == Drain(older, codes, net[0..], limit) && q == Drain(newer, codes, net[p.used..], limit - p.used)
    ensures Drain(older + newer, codes, net, limit) == Pass(p.kept + q.kept, p.used + q.used, p.delivered + q.delivered)
    ensures p.used == 0 ==> p.kept == older
    ensures q.used == 0 ==> q.kept == newer
  {
    assert net[0..] == net;
    DrainConcat(older, newer, codes, net, limit);
    DrainUntouched(older, codes, net, limit);
    DrainUntouched(newer, codes, net[p.used..], limit - p.used);
  }

  lemma DrainOneMore(entries: seq<Entry>, codes: set<int>, net: seq<Attempt>, limit: nat, k: nat)
    requires k < |entries| && limit <= |net|
    ensures var p := Drain(entries[..k], codes, net, limit);
      && p.used <= limit
      && Drain(entries[..k + 1], codes, net, limit) ==
         if !Replayable(entries[k], codes) || p.used == limit then p.(kept := p.kept + [entries[k]])
         else
           var r := Repost(entries[k], net[p.used].outcome);
           if r.delivered then p.(used := p.used + 1, delivered := p.delivered + 1)
           else p.(kept := p.kept + [Refresh(entries[k], r)], used := p.used + 1)
  {
    var last := [entries[k]];
    assert entries[..k + 1] == entries[..k] + last && last[1..] == [];
    DrainConcat(entries[..k], last, codes, net, limit);
  }

  lemma {:induction false} DrainUntouched(entries: seq<Entry>, codes: set<int>, net: seq<Attempt>, limit: nat)
    requires limit <= |net|
    ensures Drain(entries, codes, net, limit).used == 0 ==> Drain(entries, codes, net, limit).kept == entries
  {
    if entries != [] && !(Replayable(entries[0], codes) && limit > 0) {
      DrainUntouched(entries[1..], codes, net, limit);
    }
  }
}
